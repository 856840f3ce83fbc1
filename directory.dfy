/** The asset directory resolver: narrows the full coin list to the coins
    with a Solana contract address (dex.py:55-63, dex1.py:46-54). */
module Directory {
  import opened Records
  import opened Selection

  /** `coin.get('platforms', {}).get('solana')` when it is truthy: a
      present, non-null, non-empty address. */
  function SolanaAddress(a: Asset): (addr: Option<string>)
    ensures addr.Some? ==> addr.value != ""
    ensures addr.Some? <==>
      && a.platforms.Some? && "solana" in a.platforms.value
      && a.platforms.value["solana"].Some? && a.platforms.value["solana"].value != ""
    ensures addr.Some? ==> addr == a.platforms.value["solana"]
  {
    var platforms := GetOr(a.platforms, map[]);
    if "solana" in platforms && platforms["solana"] != Some("") then platforms["solana"] else None
  }

  predicate HasSolana(a: Asset)
  {
    SolanaAddress(a).Some?
  }

  /** The candidate list `solana_ids`: the ids of the assets with a Solana
      address, in directory order. */
  function SolanaIds(dir: seq<Asset>): (ids: seq<string>)
    ensures |ids| == |KeptIndices(dir, HasSolana)|
    ensures forall k :: 0 <= k < |ids| ==> ids[k] == dir[KeptIndices(dir, HasSolana)[k]].id
  {
    var kept := Filter(dir, HasSolana);
    seq(|kept|, k requires 0 <= k < |kept| => kept[k].id)
  }

  /** The map `id_to_contract`, written entry by entry in directory order,
      so a later asset with the same id overwrites an earlier one. */
  function Contracts(dir: seq<Asset>): (m: map<string, string>)
    ensures forall x :: x in m ==> exists i :: 0 <= i < |dir| && dir[i].id == x && SolanaAddress(dir[i]) == Some(m[x])
    decreases |dir|
  {
    if dir == [] then map[]
    else
      var last := dir[|dir| - 1];
      var m := Contracts(dir[..|dir| - 1]);
      match SolanaAddress(last)
      case Some(addr) => m[last.id := addr]
      case None => m
  }

  /** Extending the directory by one asset extends the candidate list by
      that asset's id exactly when it has a Solana address. */
  lemma SolanaIdsSnoc(dir: seq<Asset>)
    requires dir != []
    ensures SolanaIds(dir) == SolanaIds(dir[..|dir| - 1]) +
      (if HasSolana(dir[|dir| - 1]) then [dir[|dir| - 1].id] else [])
  {
    var init := dir[..|dir| - 1];
    assert Filter(dir, HasSolana) == Filter(init, HasSolana) +
      (if HasSolana(dir[|dir| - 1]) then [dir[|dir| - 1]] else []);
  }

  /** The candidates are exactly the ids of the assets with a Solana address. */
  lemma CandidatesExact(dir: seq<Asset>, x: string)
    ensures x in SolanaIds(dir) <==> exists i :: 0 <= i < |dir| && dir[i].id == x && HasSolana(dir[i])
  {
    var idx := KeptIndices(dir, HasSolana);
    if x in SolanaIds(dir) {
      var k :| 0 <= k < |SolanaIds(dir)| && SolanaIds(dir)[k] == x;
      assert dir[idx[k]].id == x && HasSolana(dir[idx[k]]);
    }
    if i :| 0 <= i < |dir| && dir[i].id == x && HasSolana(dir[i]) {
      var k :| 0 <= k < |idx| && idx[k] == i;
      assert SolanaIds(dir)[k] == x;
    }
  }

  /** A directory in which no asset has a Solana address yields no
      candidate and an empty map. */
  lemma {:induction false} NoAddressNoCandidates(dir: seq<Asset>)
    requires forall i :: 0 <= i < |dir| ==> !HasSolana(dir[i])
    ensures SolanaIds(dir) == [] && Contracts(dir) == map[]
    decreases |dir|
  {
    if dir != [] {
      NoAddressNoCandidates(dir[..|dir| - 1]);
      SolanaIdsSnoc(dir);
    }
  }

  /** The map covers every candidate and nothing else. */
  lemma {:induction false} ContractKeys(dir: seq<Asset>)
    ensures Contracts(dir).Keys == set x | x in SolanaIds(dir)
    decreases |dir|
  {
    if dir != [] {
      ContractKeys(dir[..|dir| - 1]);
      SolanaIdsSnoc(dir);
    }
  }

  /** Every mapped address is a truthy Solana address. */
  lemma {:induction false} ContractsNonEmpty(dir: seq<Asset>, x: string)
    requires x in Contracts(dir)
    ensures Contracts(dir)[x] != ""
    decreases |dir|
  {
    var last := dir[|dir| - 1];
    if !(SolanaAddress(last).Some? && last.id == x) {
      ContractsNonEmpty(dir[..|dir| - 1], x);
    }
  }

  /** A candidate maps to the address of the last asset in the directory
      that carries its id and a Solana address. */
  lemma {:induction false} ContractOfLastEntry(dir: seq<Asset>, i: nat)
    requires i < |dir| && HasSolana(dir[i])
    requires forall j :: i < j < |dir| && dir[j].id == dir[i].id ==> !HasSolana(dir[j])
    ensures dir[i].id in Contracts(dir)
    ensures Contracts(dir)[dir[i].id] == SolanaAddress(dir[i]).value
    decreases |dir|
  {
    var front, last := dir[..|dir| - 1], dir[|dir| - 1];
    ContractsSnoc(dir);
    if i < |dir| - 1 {
      assert front[i] == dir[i];
      ContractOfLastEntry(front, i);
      assert !(HasSolana(last) && last.id == dir[i].id);
    }
  }

  /** The map of a directory is its prefix's map, updated by the last asset. */
  lemma ContractsSnoc(dir: seq<Asset>)
    requires dir != []
    ensures var front, last := dir[..|dir| - 1], dir[|dir| - 1];
      Contracts(dir) == if HasSolana(last) then Contracts(front)[last.id := SolanaAddress(last).value] else Contracts(front)
  {
  }

  /** With unique ids, every candidate maps to its own Solana address. */
  lemma ContractOfUniqueId(dir: seq<Asset>, i: nat)
    requires forall j, k :: 0 <= j < k < |dir| ==> dir[j].id != dir[k].id
    requires i < |dir| && HasSolana(dir[i])
    ensures dir[i].id in Contracts(dir)
    ensures Contracts(dir)[dir[i].id] == SolanaAddress(dir[i]).value
  {
    ContractOfLastEntry(dir, i);
  }

  /** One more asset of the directory: its id joins the candidates, and
      its address the map, exactly when it has a Solana address. */
  lemma ResolveStep(dir: seq<Asset>, i: nat)
    requires i < |dir|
    ensures SolanaIds(dir[..i + 1]) == SolanaIds(dir[..i]) + (if HasSolana(dir[i]) then [dir[i].id] else [])
    ensures Contracts(dir[..i + 1]) ==
      if HasSolana(dir[i]) then Contracts(dir[..i])[dir[i].id := SolanaAddress(dir[i]).value]
      else Contracts(dir[..i])
  {
    assert dir[..i + 1][..i] == dir[..i];
    assert dir[..i + 1][i] == dir[i];
    SolanaIdsSnoc(dir[..i + 1]);
  }

  /** The directory loop: one pass over the coin list, appending to
      `solana_ids` and writing `id_to_contract` as it goes. */
  method ResolveDirectory(dir: seq<Asset>) returns (ids: seq<string>, contracts: map<string, string>)
    ensures ids == SolanaIds(dir)
    ensures contracts == Contracts(dir)
  {
    ids, contracts := [], map[];
    var i := 0;
    while i < |dir|
      invariant 0 <= i <= |dir|
      invariant ids == SolanaIds(dir[..i])
      invariant contracts == Contracts(dir[..i])
    {
      var coin := dir[i];
      var platforms := GetOr(coin.platforms, map[]);
      var solanaAddr := if "solana" in platforms then platforms["solana"] else None;
      ResolveStep(dir, i);
      assert HasSolana(coin) <==> solanaAddr.Some? && solanaAddr.value != "";
      if solanaAddr.Some? && solanaAddr.value != "" {
        assert solanaAddr == SolanaAddress(coin);
        ids := ids + [coin.id];
        contracts := contracts[coin.id := solanaAddr.value];
      }
      i := i + 1;
    }
    assert dir[..i] == dir;
  }
}
