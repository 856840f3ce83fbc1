/** The values that flow between the stages of the Solana pump report:
    directory assets, market coins as the upstream JSON delivers them,
    the table rows built from them, and the float cells pandas holds. */
module Records {

  datatype Option<+T> = None | Some(value: T)

  function GetOr<T>(o: Option<T>, default: T): T
  {
    match o
    case Some(v) => v
    case None => default
  }

  /** A key of a JSON object as `dict.get` sees it: absent, present with
      `null`, or present with a value. */
  datatype Field<+T> = Missing | Null | Value(value: T)

  /** A float64 cell of the report table: a finite number, positive
      infinity (the unknown age) or NaN (a JSON `null` number). */
  datatype Float = Fin(x: real) | PosInf | NaN

  /** `a > t` in IEEE arithmetic: NaN compares false, +inf exceeds every bound. */
  predicate Gt(a: Float, t: real)
  {
    match a
    case Fin(x) => x > t
    case PosInf => true
    case NaN => false
  }

  /** `a < t` in IEEE arithmetic: NaN and +inf both compare false. */
  predicate Lt(a: Float, t: real)
  {
    match a
    case Fin(x) => x < t
    case PosInf => false
    case NaN => false
  }

  /** `pd.isna` on a float cell. */
  predicate IsNa(a: Float)
  {
    a.NaN?
  }

  /** The two deployments of the script: `dex.py` (batches of 100, rows
      with a Name column) and `dex1.py` (batches of 250, no Name column). */
  datatype Variant = Dex | Dex1

  /** `per_page`: how many candidate ids one market request carries. */
  function PerPage(v: Variant): (n: nat)
    ensures n > 0
  {
    match v
    case Dex => 100
    case Dex1 => 250
  }

  /** Row count at which the fetch loop issues no further batch. */
  const RowCap: nat := 1000

  /** An entry of the coin directory: its id and its platform -> address
      map (`None` when the key `platforms` is absent; a `None` address is
      a JSON `null`). */
  datatype Asset = Asset(id: string, platforms: Option<map<string, Option<string>>>)

  /** A coin object of a market response; `None` text fields are absent keys. */
  datatype Coin = Coin(
    id: Option<string>,
    name: Option<string>,
    symbol: Option<string>,
    change1h: Field<real>,
    volume: Field<real>,
    marketCap: Field<real>,
    lastUpdated: Field<string>)

  /** A row of the report table; `name` is `None` in the variant whose
      rows have no Name column. */
  datatype Row = Row(
    id: string,
    name: Option<string>,
    pair: string,
    symbol: string,
    change1h: real,
    volume: Float,
    marketCap: Float,
    age: Float,
    contract: string)

  /** An HTTP response: any status other than 200, or 200 with its JSON body. */
  datatype Response<+T> = NotOk | Ok(body: T)

  /** Concatenation regroups freely; the step sequence proofs cite. */
  lemma Associative<T>(a: seq<T>, b: seq<T>, c: seq<T>)
    ensures a + (b + c) == (a + b) + c
  {
  }
}
