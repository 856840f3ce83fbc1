/** One run of the bot, end to end (dex.py:47-135, dex1.py:39-121): fetch
    the asset directory, resolve the Solana candidates, fetch their market
    rows, filter and rank them, and decide what the Telegram report holds.

    The directory response, the market responses and the age clock are
    inputs; sending the report and the text of the message are not
    modelled. */
module Pipeline {
  import opened Records
  import opened Directory
  import opened Fetcher
  import opened FilterRank

  /** How a run ends:
      - `DirectoryFailed`: the directory request was not answered with 200;
        an error notice is sent and the script exits.
      - `ResponsesExhausted`: the market responses ran out before a request
        the loop would still send, a retry or the next page's batch.
      - `NlargestRaised`: `nlargest` raised TypeError on the volume column
        and no report is sent.
      - `Reported`: the report is sent, built from the whole filtered set,
        the ranked rows, and whether the export file is attached. */
  datatype Outcome =
    | DirectoryFailed
    | ResponsesExhausted(rows: seq<Row>)
    | NlargestRaised(rows: seq<Row>)
    | Reported(filtered: seq<Row>, top: seq<Row>, attached: bool)

  /** What the fetch loop reads, from a resolved directory. */
  function EnvOf(v: Variant, dir: seq<Asset>, elapsed: string -> Option<real>): (env: Env)
    ensures env.variant == v
    ensures forall x :: x in env.ids <==> exists i :: 0 <= i < |dir| && dir[i].id == x && HasSolana(dir[i])
    ensures env.contracts.Keys == set x | x in env.ids
  {
    var env := Env(v, SolanaIds(dir), Contracts(dir), elapsed);
    assert forall x :: x in env.ids <==> exists i :: 0 <= i < |dir| && dir[i].id == x && HasSolana(dir[i]) by {
      forall x ensures x in env.ids <==> exists i :: 0 <= i < |dir| && dir[i].id == x && HasSolana(dir[i]) {
        CandidatesExact(dir, x);
      }
    }
    ContractKeys(dir);
    env
  }

  /** The run, as a function of its inputs. */
  function Run(v: Variant, directory: Response<seq<Asset>>, script: seq<Response<seq<Coin>>>,
               elapsed: string -> Option<real>): (o: Outcome)
    ensures o.DirectoryFailed? <==> directory.NotOk?
    ensures o.Reported? ==> (o.attached <==> o.filtered != [])
    ensures o.Reported? && o.attached ==>
      && o.top == NLargest(o.filtered, 10)
      && |o.top| == (if |o.filtered| < 10 then |o.filtered| else 10) && forall x :: x in o.top ==> Keep(x)
    ensures o.Reported? && !o.attached ==>
      directory.Ok? && o.top == NLargest(Fetch(EnvOf(v, directory.body, elapsed), script, [], 1).rows, 5)
    ensures o.NlargestRaised? ==> forall i :: 0 <= i < |o.rows| ==> o.rows[i].volume.NaN?
    // When a run reports: once the directory is answered, the run ends
    // exhausted exactly when the fetch does not finish, raises exactly when
    // nothing passes and no volume is numeric, and reports otherwise.
    ensures directory.Ok? ==>
      var f := Fetch(EnvOf(v, directory.body, elapsed), script, [], 1);
      && (o.ResponsesExhausted? <==> !f.finished)
      && (o.NlargestRaised? <==> f.finished && FilterRows(f.rows) == [] && !NumericVolume(f.rows))
      && (o.Reported? <==> f.finished && (FilterRows(f.rows) != [] || NumericVolume(f.rows)))
      && (!o.Reported? ==> o.rows == f.rows)
      && (o.Reported? ==> o.filtered == FilterRows(f.rows))
  {
    match directory
    case NotOk => DirectoryFailed
    case Ok(dir) =>
      var fetched := Fetch(EnvOf(v, dir, elapsed), script, [], 1);
      if !fetched.finished then ResponsesExhausted(fetched.rows)
      else match Rank(fetched.rows)
        case TypeErrorRaised => NlargestRaised(fetched.rows)
        case Ranked(filtered, top, attached) => Reported(filtered, top, attached)
  }

  /** The script's top level: the directory loop, the fetch loop, then the
      filter and the ranking. */
  method RunScript(v: Variant, directory: Response<seq<Asset>>, script: seq<Response<seq<Coin>>>,
                   elapsed: string -> Option<real>) returns (o: Outcome)
    ensures o == Run(v, directory, script, elapsed)
  {
    if directory.NotOk? {
      return DirectoryFailed;
    }
    var ids, contracts := ResolveDirectory(directory.body);
    var env := Env(v, ids, contracts, elapsed);
    var rows, page, requested, finished := FetchRows(env, script);
    if !finished {
      return ResponsesExhausted(rows);
    }
    var ranking := Rank(rows);
    if ranking.TypeErrorRaised? {
      return NlargestRaised(rows);
    }
    o := Reported(ranking.filtered, ranking.top, ranking.attached);
  }

  /** A directory without any Solana address: the fetch loop stops before
      its first request, the table is empty, and `nlargest` raises on it,
      so the run sends no report at all. */
  lemma NoCandidatesRaises(v: Variant, dir: seq<Asset>, script: seq<Response<seq<Coin>>>,
                           elapsed: string -> Option<real>)
    requires forall i :: 0 <= i < |dir| ==> !HasSolana(dir[i])
    ensures Run(v, Ok(dir), script, elapsed) == NlargestRaised([])
  {
    var env := EnvOf(v, dir, elapsed);
    NoAddressNoCandidates(dir);
    assert Stopped(env, [], 1) by {
      assert Batch(env.ids, PerPage(v), 1) == [];
    }
    assert Fetch(env, script, [], 1) == Fetched(true, [], 1, []);
    assert Rank([]) == TypeErrorRaised by {
      assert FilterRows([]) == [];
      assert !NumericVolume([]);
    }
  }

  /** The exported table is the filter applied to the rows of exactly the
      200 responses the fetch consumed, in order, and it is attached
      exactly when it is not empty. */
  lemma ExportIsFilteredFetch(v: Variant, dir: seq<Asset>, script: seq<Response<seq<Coin>>>,
                              elapsed: string -> Option<real>)
    ensures var env := EnvOf(v, dir, elapsed);
      var consumed := |Fetch(env, script, [], 1).sent|;
      var o := Run(v, Ok(dir), script, elapsed);
      o.Reported? ==>
        && o.filtered == FilterRows(Appended(env, [], script[..consumed]))
        && (o.attached <==> exists x :: x in Appended(env, [], script[..consumed]) && Keep(x))
  {
    var env := EnvOf(v, dir, elapsed);
    var fetched := Fetch(env, script, [], 1);
    var o := Run(v, Ok(dir), script, elapsed);
    if o.Reported? {
      FetchAccount(env, script, [], 1);
      assert fetched.finished && Rank(fetched.rows).Ranked?;
      assert o.filtered == FilterRows(fetched.rows);
      if o.filtered != [] {
        assert o.filtered[0] in o.filtered;
      }
    }
  }

  /** A report without the export samples the five rows with the largest
      volume among all fetched rows, none of which passes the filter. */
  lemma SampleFailsFilter(v: Variant, dir: seq<Asset>, script: seq<Response<seq<Coin>>>,
                          elapsed: string -> Option<real>)
    ensures var o := Run(v, Ok(dir), script, elapsed);
      var rows := Fetch(EnvOf(v, dir, elapsed), script, [], 1).rows;
      o.Reported? && !o.attached ==>
        && o.top == NLargest(rows, 5)
        && forall x :: x in o.top ==> x in rows && !Keep(x)
  {
  }
}
