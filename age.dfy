/** The age estimator `parse_age`: hours since a coin's `last_updated`
    timestamp, or +inf when that cannot be determined. */
module AgeEstimator {
  import opened Records

  /** `s.replace('Z', '+00:00')`: every `Z` becomes the explicit UTC offset. */
  function ReplaceZ(s: string): (r: string)
    ensures 'Z' !in r
    ensures 'Z' !in s ==> r == s
    ensures |r| >= |s|
  {
    if s == [] then []
    else (if s[0] == 'Z' then "+00:00" else [s[0]]) + ReplaceZ(s[1..])
  }

  /** On one character, `Z` becomes `+00:00` and any other character
      stays ... */
  lemma ReplaceZChar(c: char)
    ensures ReplaceZ([c]) == if c == 'Z' then "+00:00" else [c]
  {
    assert [c][1..] == [];
  }

  lemma ReplaceZCons(c: char, t: string)
    ensures ReplaceZ([c] + t) == ReplaceZ([c]) + ReplaceZ(t)
  {
    assert ([c] + t)[0] == c && ([c] + t)[1..] == t;
    ReplaceZChar(c);
  }

  /** ... and the replacement distributes over concatenation, so it works
      character by character. */
  lemma {:induction false} ReplaceZAppend(a: string, b: string)
    ensures ReplaceZ(a + b) == ReplaceZ(a) + ReplaceZ(b)
    decreases |a|
  {
    if a == [] {
      assert a + b == b;
    } else {
      var c, t := a[0], a[1..];
      assert a == [c] + t && a + b == [c] + (t + b);
      calc {
        ReplaceZ(a + b);
        == { ReplaceZCons(c, t + b); }
        ReplaceZ([c]) + ReplaceZ(t + b);
        == { ReplaceZAppend(t, b); }
        ReplaceZ([c]) + (ReplaceZ(t) + ReplaceZ(b));
        == { Associative(ReplaceZ([c]), ReplaceZ(t), ReplaceZ(b)); }
        (ReplaceZ([c]) + ReplaceZ(t)) + ReplaceZ(b);
        == { ReplaceZCons(c, t); }
        ReplaceZ(a) + ReplaceZ(b);
      }
    }
  }

  /** `parse_age(last_updated)`. `elapsed` stands for `datetime.fromisoformat`
      and the hours from that time to one fixed UTC instant, which stands for
      every clock reading of the run; `None` where either raises. It is total:
      every error path ends in +inf, never in an exception and never in NaN. */
  function ParseAge(lastUpdated: Field<string>, elapsed: string -> Option<real>): (age: Float)
    ensures !IsNa(age)
    ensures age.PosInf? <==>
      (lastUpdated.Value? ==> lastUpdated.value == "" || elapsed(ReplaceZ(lastUpdated.value)).None?)
    ensures age.Fin? ==> lastUpdated.Value? && elapsed(ReplaceZ(lastUpdated.value)) == Some(age.x)
  {
    match lastUpdated
    case Missing => PosInf
    case Null => PosInf
    case Value(s) =>
      if s == "" then PosInf
      else match elapsed(ReplaceZ(s))
        case None => PosInf
        case Some(h) => Fin(h)
  }
}
