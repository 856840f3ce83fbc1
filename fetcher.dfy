/** The market data fetcher: walks the candidate list in fixed batches,
    retries a batch until it gets a 200 response, and turns every returned
    coin into one report row (dex.py:68-99, dex1.py:59-89).

    The HTTP responses are an input script, consumed one per request. When
    the script has no response left for a request the loop would still send
    (a retry or the next page), the fetch ends early, unfinished. */
module Fetcher {
  import opened Records
  import opened AgeEstimator
  import Directory

  // ---------------------------------------------------------------- rows

  function UpperChar(c: char): char
  {
    if 'a' <= c <= 'z' then (c as int - 32) as char else c
  }

  /** `str.upper()` on ASCII letters. */
  function Upper(s: string): (r: string)
    ensures |r| == |s|
    ensures forall i :: 0 <= i < |r| ==> !('a' <= r[i] <= 'z')
    ensures forall i :: 0 <= i < |r| && !('a' <= s[i] <= 'z') ==> r[i] == s[i]
    ensures forall i :: 0 <= i < |r| && 'a' <= s[i] <= 'z' ==> r[i] == (s[i] as int - 32) as char
  {
    seq(|s|, i requires 0 <= i < |s| => UpperChar(s[i]))
  }

  /** Everything the fetch loop reads besides the responses: the variant,
      the candidate list, the id -> contract map and the age clock (one instant). */
  datatype Env = Env(
    variant: Variant,
    ids: seq<string>,
    contracts: map<string, string>,
    elapsed: string -> Option<real>)

  /** One report row from one coin of a market response, with the
      script's defaults: `'N/A'` for a missing id, name or symbol, 0 for a
      missing or null 1h change, 0 for a missing volume or market cap (a
      null one stays null, which pandas holds as NaN), the contract looked
      up in the directory map with `'N/A'` when the id is not there. */
  function MakeRow(env: Env, coin: Coin): (r: Row)
    ensures r.id == GetOr(coin.id, "N/A")
    ensures r.name.Some? <==> env.variant == Dex
    ensures r.name.Some? ==> r.name.value == GetOr(coin.name, "N/A")
    ensures r.symbol == Upper(GetOr(coin.symbol, "N/A"))
    ensures forall i :: 0 <= i < |r.symbol| ==> !('a' <= r.symbol[i] <= 'z')
    ensures r.pair == r.symbol + "/SOL"
    ensures coin.change1h.Value? ==> r.change1h == coin.change1h.value
    ensures !coin.change1h.Value? ==> r.change1h == 0.0
    ensures coin.volume.Missing? ==> r.volume == Fin(0.0)
    ensures coin.volume.Null? ==> r.volume.NaN?
    ensures coin.volume.Value? ==> r.volume == Fin(coin.volume.value)
    ensures coin.marketCap.Missing? ==> r.marketCap == Fin(0.0)
    ensures coin.marketCap.Null? ==> r.marketCap.NaN?
    ensures coin.marketCap.Value? ==> r.marketCap == Fin(coin.marketCap.value)
    ensures r.age == ParseAge(coin.lastUpdated, env.elapsed) && !IsNa(r.age)
    ensures r.contract == if r.id in env.contracts then env.contracts[r.id] else "N/A"
  {
    var symbol := Upper(GetOr(coin.symbol, "N/A"));
    var id := GetOr(coin.id, "N/A");
    Row(
      id := id,
      name := if env.variant == Dex then Some(GetOr(coin.name, "N/A")) else None,
      pair := symbol + "/SOL",
      symbol := symbol,
      change1h := if coin.change1h.Value? then coin.change1h.value else 0.0,
      volume := NumberCell(coin.volume),
      marketCap := NumberCell(coin.marketCap),
      age := ParseAge(coin.lastUpdated, env.elapsed),
      contract := if id in env.contracts then env.contracts[id] else "N/A")
  }

  /** `coin.get(key, 0)` as a table cell: absent gives 0, `null` gives NaN. */
  function NumberCell(f: Field<real>): (c: Float)
    ensures c.NaN? <==> f.Null?
    ensures c != PosInf
    ensures f.Value? ==> c == Fin(f.value)
    ensures f.Missing? ==> c == Fin(0.0)
  {
    match f
    case Missing => Fin(0.0)
    case Null => NaN
    case Value(x) => Fin(x)
  }

  /** The rows of one successful batch: one per coin, in response order. */
  function MakeRows(env: Env, coins: seq<Coin>): (rows: seq<Row>)
    ensures |rows| == |coins|
    ensures forall i {:trigger MakeRow(env, coins[i])} :: 0 <= i < |coins| ==> rows[i] == MakeRow(env, coins[i])
  {
    if coins == [] then []
    else MakeRows(env, coins[..|coins| - 1]) + [MakeRow(env, coins[|coins| - 1])]
  }

  /** A coin whose id is a candidate gets its directory address, never the
      `'N/A'` fallback. */
  lemma CandidateRowContract(dir: seq<Asset>, env: Env, coin: Coin)
    requires env.ids == Directory.SolanaIds(dir) && env.contracts == Directory.Contracts(dir)
    requires coin.id.Some? && coin.id.value in env.ids
    ensures coin.id.value in Directory.Contracts(dir)
    ensures MakeRow(env, coin).contract == Directory.Contracts(dir)[coin.id.value]
    ensures MakeRow(env, coin).contract != ""
  {
    Directory.ContractKeys(dir);
    Directory.ContractsNonEmpty(dir, coin.id.value);
  }

  // ------------------------------------------------------------- batches

  function Min(a: int, b: int): int
  {
    if a <= b then a else b
  }

  /** `(page-1)*per_page`, the position of the first id of a page, by
      repeated addition (kept free of multiplication for the solver). */
  function Offset(perPage: nat, page: nat): nat
  {
    if page <= 1 then 0 else Offset(perPage, page - 1) + perPage
  }

  lemma {:induction false} OffsetIsProduct(perPage: nat, page: nat)
    requires page >= 1
    ensures Offset(perPage, page) == (page - 1) * perPage
  {
    if page > 1 {
      OffsetIsProduct(perPage, page - 1);
    }
  }

  /** `solana_ids[(page-1)*per_page : page*per_page]`, clipped like a
      Python slice. */
  function Batch(ids: seq<string>, perPage: nat, page: nat): (b: seq<string>)
    ensures |b| <= perPage
    ensures b == [] <==> perPage == 0 || Offset(perPage, page) >= |ids|
  {
    var lo := Min(Offset(perPage, page), |ids|);
    var hi := Min(Offset(perPage, page) + perPage, |ids|);
    ids[lo..hi]
  }

  /** The ids requested by pages 1 to `pages`, concatenated. */
  function Pages(ids: seq<string>, perPage: nat, pages: nat): seq<string>
  {
    if pages == 0 then [] else Pages(ids, perPage, pages - 1) + Batch(ids, perPage, pages)
  }

  /** Consecutive pages tile the candidate list: no id is skipped and none
      is requested by two pages. */
  lemma {:induction false} PagesTile(ids: seq<string>, perPage: nat, pages: nat)
    ensures Pages(ids, perPage, pages) == ids[..Min(pages * perPage, |ids|)]
  {
    if pages > 0 {
      PagesTile(ids, perPage, pages - 1);
      OffsetIsProduct(perPage, pages);
      assert pages * perPage == (pages - 1) * perPage + perPage;
    }
  }

  /** `','.join(ids)`. */
  function Join(ids: seq<string>): (s: string)
    ensures s == "" <==> ids == [] || ids == [""]
  {
    if ids == [] then ""
    else if |ids| == 1 then ids[0]
    else ids[0] + "," + Join(ids[1..])
  }

  // ---------------------------------------------------------- fetch loop

  /** The loop guard, negated: at least `RowCap` rows, or a batch whose
      joined ids are empty. */
  predicate Stopped(env: Env, rows: seq<Row>, page: nat): (stop: bool)
    ensures stop <==> |rows| >= RowCap || Join(Batch(env.ids, PerPage(env.variant), page)) == ""
  {
    |rows| >= RowCap || BlankRequest(Batch(env.ids, PerPage(env.variant), page))
  }

  /** A batch whose joined ids are empty: no id, or one empty id. */
  predicate BlankRequest(b: seq<string>): (blank: bool)
    ensures blank <==> Join(b) == ""
  {
    b == [] || b == [""]
  }

  /** How a fetch ends: `finished` when the loop guard stopped it (false
      when the script ran out first), the rows and the page reached, and
      the batch of ids of every request issued, in order. */
  datatype Fetched = Fetched(finished: bool, rows: seq<Row>, page: nat, sent: seq<seq<string>>)

  /** The rows one response contributes: one per coin of a 200 response,
      none for a failed one. */
  function Contribution(env: Env, response: Response<seq<Coin>>): seq<Row>
  {
    match response
    case Ok(coins) => MakeRows(env, coins)
    case NotOk => []
  }

  /** The page after one response: advanced by a 200 response only. */
  function NextPage(response: Response<seq<Coin>>, page: nat): nat
  {
    if response.Ok? then page + 1 else page
  }

  /** A fetch resumed after the requests `earlier` were issued. */
  function Resumed(earlier: seq<seq<string>>, r: Fetched): Fetched
  {
    r.(sent := earlier + r.sent)
  }

  /** The fetch loop from a state (`rows`, `page`) on the responses `script`. */
  function Fetch(env: Env, script: seq<Response<seq<Coin>>>, rows: seq<Row>, page: nat): (r: Fetched)
    ensures |r.sent| <= |script|
    decreases |script|
  {
    if Stopped(env, rows, page) then Fetched(true, rows, page, [])
    else if script == [] then Fetched(false, rows, page, [])
    else
      var r := Fetch(env, script[1..], rows + Contribution(env, script[0]), NextPage(script[0], page));
      r.(sent := [Batch(env.ids, PerPage(env.variant), page)] + r.sent)
  }

  /** A fetch only adds rows and only advances the page; it ends finished
      exactly when the loop guard stopped it, and otherwise only after
      a request for every response of the script. */
  lemma {:induction false} FetchEnds(env: Env, script: seq<Response<seq<Coin>>>, rows: seq<Row>, page: nat)
    ensures var r := Fetch(env, script, rows, page);
      && rows <= r.rows && r.page >= page
      && (r.finished ==> Stopped(env, r.rows, r.page))
      && (!r.finished ==> !Stopped(env, r.rows, r.page) && |r.sent| == |script|)
    decreases |script|
  {
    if !Stopped(env, rows, page) && script != [] {
      FetchUnfold(env, script, rows, page);
      FetchEnds(env, script[1..], rows + Contribution(env, script[0]), NextPage(script[0], page));
    }
  }

  /** The rows held after the responses, in order, were processed from
      `rows`: each 200 response appends its rows, a failed one nothing. */
  function Appended(env: Env, rows: seq<Row>, responses: seq<Response<seq<Coin>>>): seq<Row>
    decreases |responses|
  {
    if responses == [] then rows
    else Appended(env, rows + Contribution(env, responses[0]), responses[1..])
  }

  /** The page reached after the responses: one step per 200 response. */
  function PageAfter(page: nat, responses: seq<Response<seq<Coin>>>): nat
    decreases |responses|
  {
    if responses == [] then page else PageAfter(NextPage(responses[0], page), responses[1..])
  }

  /** Unfolding the first response out of a prefix of the script. */
  lemma PrefixUnfold(env: Env, rows: seq<Row>, page: nat, script: seq<Response<seq<Coin>>>, k: nat)
    requires 1 <= k <= |script|
    ensures Appended(env, rows, script[..k]) == Appended(env, rows + Contribution(env, script[0]), script[1..][..k - 1])
    ensures PageAfter(page, script[..k]) == PageAfter(NextPage(script[0], page), script[1..][..k - 1])
  {
    assert script[..k][1..] == script[1..][..k - 1];
  }

  /** The rows and the page a fetch ends with are those reached by
      processing, in order, exactly the responses it consumed. */
  lemma {:induction false} FetchAccount(env: Env, script: seq<Response<seq<Coin>>>, rows: seq<Row>, page: nat)
    ensures var r := Fetch(env, script, rows, page);
      && r.rows == Appended(env, rows, script[..|r.sent|])
      && r.page == PageAfter(page, script[..|r.sent|])
    decreases |script|
  {
    var r := Fetch(env, script, rows, page);
    if !Stopped(env, rows, page) && script != [] {
      FetchUnfold(env, script, rows, page);
      FetchAccount(env, script[1..], rows + Contribution(env, script[0]), NextPage(script[0], page));
      PrefixUnfold(env, rows, page, script, |r.sent|);
    } else {
      assert script[..0] == [];
    }
  }

  /** Request k of a fetch asked for the batch of the page reached after
      the first k responses, and it was issued only because the rows held
      then numbered fewer than `RowCap` and that batch was not empty. */
  lemma {:induction false} FetchRequest(env: Env, script: seq<Response<seq<Coin>>>, rows: seq<Row>, page: nat, k: nat)
    requires k < |Fetch(env, script, rows, page).sent|
    ensures Fetch(env, script, rows, page).sent[k] == Batch(env.ids, PerPage(env.variant), PageAfter(page, script[..k]))
    ensures !Stopped(env, Appended(env, rows, script[..k]), PageAfter(page, script[..k]))
    decreases |script|
  {
    assert !Stopped(env, rows, page) && script != [];
    FetchUnfold(env, script, rows, page);
    if k == 0 {
      assert script[..0] == [];
      assert Appended(env, rows, []) == rows && PageAfter(page, []) == page;
    } else {
      FetchRequest(env, script[1..], rows + Contribution(env, script[0]), NextPage(script[0], page), k - 1);
      PrefixUnfold(env, rows, page, script, k);
    }
  }

  /** A failed response: its batch is requested, and the fetch goes on
      from the same rows and the same page. */
  lemma RetryOnce(env: Env, rest: seq<Response<seq<Coin>>>, rows: seq<Row>, page: nat)
    requires !Stopped(env, rows, page)
    ensures Fetch(env, [NotOk] + rest, rows, page)
      == Resumed([Batch(env.ids, PerPage(env.variant), page)], Fetch(env, rest, rows, page))
  {
    FetchUnfold(env, [NotOk] + rest, rows, page);
    assert ([NotOk] + rest)[1..] == rest;
    assert rows + Contribution(env, NotOk) == rows;
  }

  /** A 200 response: its batch is requested, its rows are appended and
      the page advances. */
  lemma SucceedOnce(env: Env, coins: seq<Coin>, rest: seq<Response<seq<Coin>>>, rows: seq<Row>, page: nat)
    requires !Stopped(env, rows, page)
    ensures Fetch(env, [Ok(coins)] + rest, rows, page)
      == Resumed([Batch(env.ids, PerPage(env.variant), page)], Fetch(env, rest, rows + MakeRows(env, coins), page + 1))
  {
    FetchUnfold(env, [Ok(coins)] + rest, rows, page);
    assert ([Ok(coins)] + rest)[1..] == rest;
  }

  lemma ResumedTwice(a: seq<seq<string>>, b: seq<seq<string>>, r: Fetched)
    ensures Resumed(a, Resumed(b, r)) == Resumed(a + b, r)
    ensures Resumed([], r) == r
  {
    Associative(a, b, r.sent);
    assert [] + r.sent == r.sent;
  }

  /** `n` copies of `x`. */
  function Repeated<T>(x: T, n: nat): (s: seq<T>)
    ensures |s| == n && forall i :: 0 <= i < n ==> s[i] == x
  {
    if n == 0 then [] else [x] + Repeated(x, n - 1)
  }

  /** `n` failed responses: the same batch is requested n times, and the
      fetch goes on from the same rows and page. */
  lemma {:induction false} RetryRun(env: Env, n: nat, rest: seq<Response<seq<Coin>>>, rows: seq<Row>, page: nat)
    requires !Stopped(env, rows, page)
    ensures Fetch(env, Repeated(NotOk, n) + rest, rows, page)
      == Resumed(Repeated(Batch(env.ids, PerPage(env.variant), page), n), Fetch(env, rest, rows, page))
    decreases n
  {
    var batch := Batch(env.ids, PerPage(env.variant), page);
    var after := Fetch(env, rest, rows, page);
    if n == 0 {
      RepeatedThen(NotOk, 0, rest);
      ResumedTwice([], [], after);
    } else {
      var tail := Repeated(NotOk, n - 1) + rest;
      calc {
        Fetch(env, Repeated(NotOk, n) + rest, rows, page);
        { RepeatedThen(NotOk, n, rest); }
        Fetch(env, [NotOk] + tail, rows, page);
        { RetryOnce(env, tail, rows, page); }
        Resumed([batch], Fetch(env, tail, rows, page));
        { RetryRun(env, n - 1, rest, rows, page); }
        Resumed([batch], Resumed(Repeated(batch, n - 1), after));
        { ResumedTwice([batch], Repeated(batch, n - 1), after); }
        Resumed(Repeated(batch, n), after);
      }
    }
  }

  lemma RepeatedThen<T>(x: T, n: nat, rest: seq<T>)
    ensures n == 0 ==> Repeated(x, n) + rest == rest
    ensures n > 0 ==> Repeated(x, n) + rest == [x] + (Repeated(x, n - 1) + rest)
  {
    if n > 0 {
      assert Repeated(x, n) == [x] + Repeated(x, n - 1);
      assert ([x] + Repeated(x, n - 1)) + rest == [x] + (Repeated(x, n - 1) + rest);
    } else {
      assert Repeated(x, n) + rest == [] + rest;
    }
  }

  /** `n` failed responses followed by a 200 one: the same batch is
      requested n + 1 times, its rows are appended once and the page
      advances once. */
  lemma RetryThenSucceed(env: Env, n: nat, coins: seq<Coin>,
                         rest: seq<Response<seq<Coin>>>, rows: seq<Row>, page: nat)
    requires !Stopped(env, rows, page)
    ensures Fetch(env, Repeated(NotOk, n) + [Ok(coins)] + rest, rows, page)
      == Resumed(Repeated(Batch(env.ids, PerPage(env.variant), page), n + 1),
                 Fetch(env, rest, rows + MakeRows(env, coins), page + 1))
  {
    var batch := Batch(env.ids, PerPage(env.variant), page);
    var after := Fetch(env, rest, rows + MakeRows(env, coins), page + 1);
    calc {
      Fetch(env, Repeated(NotOk, n) + [Ok(coins)] + rest, rows, page);
      { Associative(Repeated(NotOk, n), [Ok(coins)], rest); }
      Fetch(env, Repeated(NotOk, n) + ([Ok(coins)] + rest), rows, page);
      { RetryRun(env, n, [Ok(coins)] + rest, rows, page); }
      Resumed(Repeated(batch, n), Fetch(env, [Ok(coins)] + rest, rows, page));
      { SucceedOnce(env, coins, rest, rows, page); }
      Resumed(Repeated(batch, n), Resumed([batch], after));
      { ResumedTwice(Repeated(batch, n), [batch], after);
        RepeatedSnoc(batch, n); }
      Resumed(Repeated(batch, n + 1), after);
    }
  }

  lemma {:induction false} RepeatedSnoc<T>(x: T, n: nat)
    ensures Repeated(x, n) + [x] == Repeated(x, n + 1)
  {
    assert |Repeated(x, n) + [x]| == n + 1;
  }

  /** The cap is checked only before a batch: when no 200 response holds
      more than m coins, a fetch starting below `RowCap + m` rows ends
      below `RowCap + m` rows. */
  lemma {:induction false} FetchOvershootBound(env: Env, script: seq<Response<seq<Coin>>>, rows: seq<Row>, page: nat, m: nat)
    requires |rows| < RowCap + m
    requires forall i :: 0 <= i < |script| && script[i].Ok? ==> |script[i].body| <= m
    ensures |Fetch(env, script, rows, page).rows| < RowCap + m
    decreases |script|
  {
    if !Stopped(env, rows, page) && script != [] {
      FetchOvershootBound(env, script[1..], rows + Contribution(env, script[0]), NextPage(script[0], page), m);
    }
  }

  /** The bound is reached: with 999 rows held, the guard lets one more
      request through, and its two coins (one per requested id) leave 1001
      rows. */
  lemma CapCanBeExceeded(rows: seq<Row>, bonk: Coin, wif: Coin, elapsed: string -> Option<real>)
    requires |rows| == RowCap - 1
    ensures var env := Env(Dex, ["bonk", "wif"], map["bonk" := "DezX", "wif" := "EKpQ"], elapsed);
      |Fetch(env, [Ok([bonk, wif])], rows, 1).rows| == RowCap + 1
  {
    var env := Env(Dex, ["bonk", "wif"], map["bonk" := "DezX", "wif" := "EKpQ"], elapsed);
    assert Batch(env.ids, 100, 1) == ["bonk", "wif"];
    assert !Stopped(env, rows, 1);
    FetchUnfold(env, [Ok([bonk, wif])], rows, 1);
  }

  /** One iteration of the fetch loop that issues a request. */
  lemma FetchUnfold(env: Env, rest: seq<Response<seq<Coin>>>, rows: seq<Row>, page: nat)
    requires !Stopped(env, rows, page) && rest != []
    ensures var after := Fetch(env, rest[1..], rows + Contribution(env, rest[0]), NextPage(rest[0], page));
      Fetch(env, rest, rows, page) == after.(sent := [Batch(env.ids, PerPage(env.variant), page)] + after.sent)
  {
  }

  lemma MakeRowsSnoc(env: Env, coins: seq<Coin>, j: nat)
    requires j < |coins|
    ensures MakeRows(env, coins[..j + 1]) == MakeRows(env, coins[..j]) + [MakeRow(env, coins[j])]
  {
    assert coins[..j + 1][..j] == coins[..j];
  }

  /** The inner loop `for coin in markets`: one row appended per coin. */
  method AppendRows(env: Env, rows: seq<Row>, coins: seq<Coin>) returns (rows': seq<Row>)
    ensures rows' == rows + MakeRows(env, coins)
  {
    rows' := rows;
    var j := 0;
    while j < |coins|
      invariant 0 <= j <= |coins|
      invariant rows' == rows + MakeRows(env, coins[..j])
    {
      MakeRowsSnoc(env, coins, j);
      rows' := rows' + [MakeRow(env, coins[j])];
      j := j + 1;
    }
    assert coins[..j] == coins;
  }

  /** The fetch loop after the guard stopped it, having issued the
      requests `requested`. */
  lemma FetchStopped(env: Env, script: seq<Response<seq<Coin>>>, rows: seq<Row>, page: nat, requested: seq<seq<string>>)
    requires Stopped(env, rows, page)
    ensures Resumed(requested, Fetch(env, script, rows, page)) == Fetched(true, rows, page, requested)
  {
    assert requested + [] == requested;
  }

  /** The fetch loop when it still had a request to issue but no
      response left for it. */
  lemma FetchExhausted(env: Env, rows: seq<Row>, page: nat, requested: seq<seq<string>>)
    requires !Stopped(env, rows, page)
    ensures Resumed(requested, Fetch(env, [], rows, page)) == Fetched(false, rows, page, requested)
  {
    assert requested + [] == requested;
  }

  /** One pass of the fetch loop that issues a request, seen from the
      script position `next`: a failed response leaves rows and page as
      they were, a 200 one appends its rows and advances the page. */
  lemma FetchStep(env: Env, script: seq<Response<seq<Coin>>>, next: nat, rows: seq<Row>, page: nat,
                  requested: seq<seq<string>>)
    requires next < |script| && !Stopped(env, rows, page)
    ensures var requested' := requested + [Batch(env.ids, PerPage(env.variant), page)];
      Resumed(requested, Fetch(env, script[next..], rows, page)) ==
        match script[next]
        case NotOk => Resumed(requested', Fetch(env, script[next + 1..], rows, page))
        case Ok(coins) => Resumed(requested', Fetch(env, script[next + 1..], rows + MakeRows(env, coins), page + 1))
  {
    FetchUnfold(env, script[next..], rows, page);
    assert script[next..][0] == script[next] && script[next..][1..] == script[next + 1..];
    var after := Fetch(env, script[next + 1..], rows + Contribution(env, script[next]), NextPage(script[next], page));
    ResumedTwice(requested, [Batch(env.ids, PerPage(env.variant), page)], after);
    assert rows + [] == rows;
  }

  lemma FetchRetried(env: Env, script: seq<Response<seq<Coin>>>, next: nat, rows: seq<Row>, page: nat,
                     requested: seq<seq<string>>, batch: seq<string>)
    requires next < |script| && script[next].NotOk? && !Stopped(env, rows, page)
    requires batch == Batch(env.ids, PerPage(env.variant), page)
    ensures Resumed(requested, Fetch(env, script[next..], rows, page))
      == Resumed(requested + [batch], Fetch(env, script[next + 1..], rows, page))
  {
    FetchStep(env, script, next, rows, page, requested);
  }

  lemma FetchAdvanced(env: Env, script: seq<Response<seq<Coin>>>, next: nat, rows: seq<Row>, page: nat,
                      requested: seq<seq<string>>, batch: seq<string>, rows': seq<Row>)
    requires next < |script| && script[next].Ok? && !Stopped(env, rows, page)
    requires batch == Batch(env.ids, PerPage(env.variant), page)
    requires rows' == rows + MakeRows(env, script[next].body)
    ensures Resumed(requested, Fetch(env, script[next..], rows, page))
      == Resumed(requested + [batch], Fetch(env, script[next + 1..], rows', page + 1))
  {
    FetchStep(env, script, next, rows, page, requested);
  }

  /** The body of the fetch loop for a 200 response: the coins' rows are
      appended, and the loop resumes at the next response on the next
      page. */
  method AcceptResponse(env: Env, script: seq<Response<seq<Coin>>>, next: nat, rows: seq<Row>, page: nat,
                        requested: seq<seq<string>>, batch: seq<string>)
    returns (rows': seq<Row>)
    requires next < |script| && script[next].Ok? && !Stopped(env, rows, page)
    requires batch == Batch(env.ids, PerPage(env.variant), page)
    ensures Resumed(requested, Fetch(env, script[next..], rows, page))
      == Resumed(requested + [batch], Fetch(env, script[next + 1..], rows', page + 1))
  {
    rows' := AppendRows(env, rows, script[next].body);
    FetchAdvanced(env, script, next, rows, page, requested, batch, rows');
  }

  /** The fetch loop: `rows` and `page` are updated in place; a non-200
      response is retried with the same page; a 200 response appends one
      row per coin and advances the page. `requested` lists the batch of
      every request issued, and `finished` is false when the responses ran
      out before the loop guard stopped it. */
  method FetchRows(env: Env, script: seq<Response<seq<Coin>>>)
    returns (rows: seq<Row>, page: nat, requested: seq<seq<string>>, finished: bool)
    ensures page >= 1
    ensures Fetch(env, script, [], 1) == Fetched(finished, rows, page, requested)
  {
    rows, page, requested, finished := [], 1, [], true;
    var next := 0;
    ghost var total := Fetch(env, script, [], 1);
    assert script[0..] == script;
    ResumedTwice([], [], total);
    while |rows| < RowCap
      invariant 0 <= next <= |script| && page >= 1
      invariant total == Resumed(requested, Fetch(env, script[next..], rows, page))
      decreases |script| - next
    {
      var batch := Batch(env.ids, PerPage(env.variant), page);
      if Join(batch) == "" {
        FetchStopped(env, script[next..], rows, page, requested);
        break;
      }
      if next == |script| {
        assert script[next..] == [];
        FetchExhausted(env, rows, page, requested);
        finished := false;
        break;
      }
      var response := script[next];
      if response.NotOk? {
        FetchRetried(env, script, next, rows, page, requested, batch);
        next, requested := next + 1, requested + [batch];
        continue;
      }
      var rows' := AcceptResponse(env, script, next, rows, page, requested, batch);
      next, requested := next + 1, requested + [batch];
      rows, page := rows', page + 1;
    }
    if |rows| >= RowCap {
      FetchStopped(env, script[next..], rows, page, requested);
    }
  }
}
