/** The artifact store: least recently used first, bounded in number and bytes, with expiry. */
module ArtifactStore {
  datatype Artifact = Artifact(id: string, size: nat, expires: int)

  datatype Bounds = Bounds(maxArtifacts: nat, maxBytes: nat, ttl: nat)

  datatype Outcome<T> = Success(value: T) | TooLarge | UnknownArtifact | BadBounds

  // ---------------------------------------------------------------- recency lists

  function Size(entries: seq<Artifact>): nat {
    if entries == [] then 0 else entries[0].size + Size(entries[1..])
  }

  predicate Fits(bounds: Bounds, entries: seq<Artifact>) {
    |entries| <= bounds.maxArtifacts && Size(entries) <= bounds.maxBytes
  }

  predicate Holds(entries: seq<Artifact>, id: string) { exists artifact :: artifact in entries && artifact.id == id }

  predicate Distinct(entries: seq<Artifact>) {
    forall i, j :: 0 <= i < j < |entries| ==> entries[i].id != entries[j].id
  }

  /** The artifacts that are not among the removed. */
  function Kept(entries: seq<Artifact>, removed: set<string>): seq<Artifact> {
    if entries == [] then []
    else (if entries[0].id in removed then [] else [entries[0]]) + Kept(entries[1..], removed)
  }

  /** The artifacts that have not expired. */
  function Live(entries: seq<Artifact>, now: int): seq<Artifact> {
    if entries == [] then []
    else (if entries[0].expires <= now then [] else [entries[0]]) + Live(entries[1..], now)
  }

  /** Evicts the oldest until the rest fits. */
  function Trimmed(bounds: Bounds, entries: seq<Artifact>): seq<Artifact> {
    if entries == [] || Fits(bounds, entries) then entries else Trimmed(bounds, entries[1..])
  }

  function AfterPut(bounds: Bounds, entries: seq<Artifact>, artifact: Artifact, now: int): seq<Artifact> {
    Trimmed(bounds, Live(entries, now) + [artifact])
  }

  function AfterGet(entries: seq<Artifact>, artifact: Artifact, now: int): seq<Artifact> {
    Kept(Live(entries, now), {artifact.id}) + [artifact]
  }

  // ---------------------------------------------------------------- what eviction leaves

  lemma {:induction false} SizeAppend(xs: seq<Artifact>, ys: seq<Artifact>)
    ensures Size(xs + ys) == Size(xs) + Size(ys)
  {
    if xs == [] {
      assert xs + ys == ys;
    } else {
      assert (xs + ys)[1..] == xs[1..] + ys;
      SizeAppend(xs[1..], ys);
    }
  }

  /** Longer suffixes are larger. */
  lemma SuffixSizes(entries: seq<Artifact>, i: nat, j: nat)
    requires i <= j <= |entries|
    ensures Size(entries[j..]) <= Size(entries[i..])
  {
    assert entries[i..] == entries[i..j] + entries[j..];
    SizeAppend(entries[i..j], entries[j..]);
  }

  /** Eviction leaves the longest part of the recency order that fits, counted from the most recent. */
  lemma {:induction false} TrimmedIsLongestFit(bounds: Bounds, entries: seq<Artifact>)
    ensures |Trimmed(bounds, entries)| <= bounds.maxArtifacts && Size(Trimmed(bounds, entries)) <= bounds.maxBytes
    ensures |Trimmed(bounds, entries)| <= |entries|
    ensures Trimmed(bounds, entries) == entries[|entries| - |Trimmed(bounds, entries)|..]
    ensures forall i :: 0 <= i < |entries| - |Trimmed(bounds, entries)| ==>
              |entries[i..]| > bounds.maxArtifacts || Size(entries[i..]) > bounds.maxBytes
    decreases |entries|
  {
    if entries != [] && !Fits(bounds, entries) {
      var rest := entries[1..];
      TrimmedIsLongestFit(bounds, rest);
      var dropped := |entries| - |Trimmed(bounds, entries)|;
      assert entries[dropped..] == rest[dropped - 1..];
      forall i | 0 <= i < dropped ensures !Fits(bounds, entries[i..]) {
        if i == 0 {
          assert entries[0..] == entries;
        } else {
          assert entries[i..] == rest[i - 1..];
        }
      }
    }
  }

  /** An artifact outlives a put exactly when it fits together with everything used after it. */
  lemma SurvivesPutExactly(bounds: Bounds, entries: seq<Artifact>, artifact: Artifact, now: int, i: nat)
    requires i < |Live(entries, now)|
    ensures |Live(entries, now)| + 1 - |AfterPut(bounds, entries, artifact, now)| <= i
            <==> |Live(entries, now)| - i + 1 <= bounds.maxArtifacts
                 && Size(Live(entries, now)[i..]) + artifact.size <= bounds.maxBytes
  {
    var all := Live(entries, now) + [artifact];
    var kept := |all| - |AfterPut(bounds, entries, artifact, now)|;
    TrimmedIsLongestFit(bounds, all);
    assert all[i..] == Live(entries, now)[i..] + [artifact];
    SizeAppend(Live(entries, now)[i..], [artifact]);
    SizeOfOne(artifact);
    if kept <= i {
      SuffixSizes(all, kept, i);
    }
  }

  lemma SizeOfOne(artifact: Artifact)
    ensures Size([artifact]) == artifact.size
  {
    assert [artifact][1..] == [];
  }

  lemma {:induction false} LastSurvives(bounds: Bounds, entries: seq<Artifact>, artifact: Artifact)
    requires bounds.maxArtifacts > 0 && artifact.size <= bounds.maxBytes
    ensures var after := Trimmed(bounds, entries + [artifact]); after != [] && after[|after| - 1] == artifact
    decreases |entries|
  {
    var all := entries + [artifact];
    if entries == [] {
      SizeOfOne(artifact);
      assert all == [artifact];
    } else {
      assert all[1..] == entries[1..] + [artifact];
      LastSurvives(bounds, entries[1..], artifact);
    }
  }

  /** What was just stored is there afterwards, as the most recent. */
  lemma StoredSurvives(bounds: Bounds, entries: seq<Artifact>, artifact: Artifact, now: int)
    requires bounds.maxArtifacts > 0 && artifact.size <= bounds.maxBytes
    ensures var after := AfterPut(bounds, entries, artifact, now); after != [] && after[|after| - 1] == artifact
  {
    LastSurvives(bounds, Live(entries, now), artifact);
  }

  // ---------------------------------------------------------------- removal

  lemma {:induction false} KeptWithin(entries: seq<Artifact>, removed: set<string>)
    ensures forall artifact :: artifact in Kept(entries, removed) <==> artifact in entries && artifact.id !in removed
  {
    if entries != [] {
      KeptWithin(entries[1..], removed);
      assert forall artifact :: artifact in entries <==> artifact == entries[0] || artifact in entries[1..];
    }
  }

  lemma {:induction false} LiveWithin(entries: seq<Artifact>, now: int)
    ensures forall artifact :: artifact in Live(entries, now) <==> artifact in entries && artifact.expires > now
  {
    if entries != [] {
      LiveWithin(entries[1..], now);
      assert forall artifact :: artifact in entries <==> artifact == entries[0] || artifact in entries[1..];
    }
  }

  lemma DistinctCons(artifact: Artifact, rest: seq<Artifact>)
    requires Distinct(rest) && forall other :: other in rest ==> other.id != artifact.id
    ensures Distinct([artifact] + rest)
  {
    var all := [artifact] + rest;
    forall i, j | 0 <= i < j < |all| ensures all[i].id != all[j].id {
      assert all[j] == rest[j - 1] && all[j] in rest;
      if i > 0 {
        assert all[i] == rest[i - 1];
      }
    }
  }

  lemma DistinctTail(entries: seq<Artifact>)
    requires Distinct(entries) && entries != []
    ensures Distinct(entries[1..]) && forall other :: other in entries[1..] ==> other.id != entries[0].id
  {
    forall other | other in entries[1..] ensures other.id != entries[0].id {
      var k :| 0 <= k < |entries| - 1 && entries[1..][k] == other;
      assert entries[k + 1] == other;
    }
  }

  lemma {:induction false} KeptStaysDistinct(entries: seq<Artifact>, removed: set<string>)
    requires Distinct(entries)
    ensures Distinct(Kept(entries, removed)) && Size(Kept(entries, removed)) <= Size(entries)
    ensures |Kept(entries, removed)| <= |entries|
  {
    if entries != [] {
      var rest := Kept(entries[1..], removed);
      DistinctTail(entries);
      KeptStaysDistinct(entries[1..], removed);
      if entries[0].id !in removed {
        KeptWithin(entries[1..], removed);
        DistinctCons(entries[0], rest);
        assert ([entries[0]] + rest)[1..] == rest;
      } else {
        assert Kept(entries, removed) == rest;
      }
    }
  }

  /** Removing one more. */
  lemma {:induction false} KeptTwice(entries: seq<Artifact>, removed: set<string>, id: string)
    ensures Kept(Kept(entries, removed), {id}) == Kept(entries, removed + {id})
  {
    if entries != [] {
      KeptTwice(entries[1..], removed, id);
      if entries[0].id !in removed {
        assert Kept(entries, removed)[1..] == Kept(entries[1..], removed);
      } else {
        assert Kept(entries, removed) == Kept(entries[1..], removed);
        assert Kept(entries, removed + {id}) == Kept(entries[1..], removed + {id});
      }
    }
  }

  lemma {:induction false} NothingRemoved(entries: seq<Artifact>, removed: set<string>)
    requires forall artifact :: artifact in entries ==> artifact.id !in removed
    ensures Kept(entries, removed) == entries
  {
    if entries != [] {
      assert entries[0] in entries;
      forall artifact | artifact in entries[1..] ensures artifact.id !in removed {}
      NothingRemoved(entries[1..], removed);
    }
  }

  lemma FirstRemoved(entries: seq<Artifact>)
    requires Distinct(entries) && entries != []
    ensures Kept(entries, {entries[0].id}) == entries[1..]
  {
    DistinctTail(entries);
    NothingRemoved(entries[1..], {entries[0].id});
  }

  /** One removal takes away exactly the size of what it removes. */
  lemma {:induction false} RemovingOne(entries: seq<Artifact>, i: nat)
    requires Distinct(entries) && i < |entries|
    ensures Kept(entries, {entries[i].id}) == entries[..i] + entries[i + 1..]
    ensures Size(Kept(entries, {entries[i].id})) == Size(entries) - entries[i].size
    decreases i
  {
    if i == 0 {
      FirstRemoved(entries);
      assert entries[..0] + entries[1..] == entries[1..];
    } else {
      var rest := entries[1..];
      DistinctTail(entries);
      assert rest[i - 1] == entries[i] && entries[i] in rest;
      RemovingOne(rest, i - 1);
      RemovedLater(entries, rest[..i - 1] + rest[i..], entries[i].id);
      assert entries[..i] + entries[i + 1..] == [entries[0]] + (rest[..i - 1] + rest[i..]);
    }
  }

  lemma RemovedLater(entries: seq<Artifact>, kept: seq<Artifact>, id: string)
    requires entries != [] && entries[0].id != id && Kept(entries[1..], {id}) == kept
    ensures Kept(entries, {id}) == [entries[0]] + kept && Size([entries[0]] + kept) == entries[0].size + Size(kept)
  {
    assert ([entries[0]] + kept)[1..] == kept;
  }

  lemma {:induction false} LiveIsKept(entries: seq<Artifact>, now: int, removed: set<string>)
    requires forall artifact :: artifact in entries ==> (artifact.id in removed <==> artifact.expires <= now)
    ensures Live(entries, now) == Kept(entries, removed)
  {
    if entries != [] {
      assert entries[0] in entries;
      forall artifact | artifact in entries[1..] ensures artifact.id in removed <==> artifact.expires <= now {}
      LiveIsKept(entries[1..], now, removed);
    }
  }

  /** A hit goes behind all others, which keep their order. */
  lemma HitGoesLast(entries: seq<Artifact>, i: nat, now: int)
    requires Distinct(Live(entries, now)) && i < |Live(entries, now)|
    ensures var live := Live(entries, now);
            AfterGet(entries, live[i], now) == live[..i] + live[i + 1..] + [live[i]]
  {
    RemovingOne(Live(entries, now), i);
  }

  /** So it outlives the next put, whatever else that evicts, when the two fit together. */
  lemma HitOutlivesThePut(bounds: Bounds, entries: seq<Artifact>, hit: Artifact, now: int, stored: Artifact, later: int)
    requires hit.expires > later && bounds.maxArtifacts >= 2 && hit.size + stored.size <= bounds.maxBytes
    ensures hit in AfterPut(bounds, AfterGet(entries, hit, now), stored, later)
  {
    var held := AfterGet(entries, hit, now);
    var live := Live(held, later);
    LiveKeepsLast(Kept(Live(entries, now), {hit.id}), hit, later);
    var i := |live| - 1;
    assert live[i..] == [hit];
    SizeOfOne(hit);
    SurvivesPutExactly(bounds, held, stored, later, i);
    var all := live + [stored];
    TrimmedIsLongestFit(bounds, all);
    var after := AfterPut(bounds, held, stored, later);
    assert after[i - (|all| - |after|)] == all[i];
  }

  lemma {:induction false} LiveKeepsLast(entries: seq<Artifact>, last: Artifact, now: int)
    requires last.expires > now
    ensures Live(entries + [last], now) != [] && Live(entries + [last], now)[|Live(entries + [last], now)| - 1] == last
    decreases |entries|
  {
    if entries == [] {
      assert [] + [last] == [last] && [last][1..] == [];
    } else {
      assert (entries + [last])[1..] == entries[1..] + [last];
      LiveKeepsLast(entries[1..], last, now);
    }
  }

  // ---------------------------------------------------------------- the store

  class Store {
    const bounds: Bounds
    /** Least recently used first. */
    var entries: seq<Artifact>
    var totalBytes: int

    constructor (bounds: Bounds)
      requires bounds.maxArtifacts > 0 && bounds.maxBytes > 0 && bounds.ttl > 0
      ensures Valid() && entries == [] && this.bounds == bounds
    {
      this.bounds := bounds;
      entries, totalBytes := [], 0;
    }

    /** Bounds that are not positive are refused. */
    static method Configure(maxArtifacts: int, maxBytes: int, ttl: int) returns (store: Outcome<Store>)
      ensures store.BadBounds? <==> maxArtifacts <= 0 || maxBytes <= 0 || ttl <= 0
      ensures !store.BadBounds? ==>
                && store.Success? && fresh(store.value) && store.value.Valid() && store.value.entries == []
                && store.value.bounds == Bounds(maxArtifacts, maxBytes, ttl)
    {
      if maxArtifacts <= 0 || maxBytes <= 0 || ttl <= 0 {
        return BadBounds;
      }
      var made := new Store(Bounds(maxArtifacts, maxBytes, ttl));
      store := Success(made);
    }

    predicate Counted()
      reads this
    {
      && Distinct(entries) && totalBytes == Size(entries)
      && bounds.maxArtifacts > 0 && bounds.maxBytes > 0 && bounds.ttl > 0
    }

    predicate Valid()
      reads this
    {
      Counted() && Fits(bounds, entries)
    }

    /** The subtraction never needs its clamp at zero. */
    method Remove(i: nat)
      requires Counted() && i < |entries|
      modifies this
      ensures Counted() && entries == Kept(old(entries), {old(entries[i].id)})
      ensures entries == old(entries)[..i] + old(entries)[i + 1..]
      ensures totalBytes == old(totalBytes) - old(entries[i].size)
    {
      RemovingOne(entries, i);
      KeptStaysDistinct(entries, {entries[i].id});
      var artifact := entries[i];
      entries := entries[..i] + entries[i + 1..];
      totalBytes := if totalBytes - artifact.size < 0 then 0 else totalBytes - artifact.size;
    }

    method Find(id: string) returns (index: Outcome<nat>)
      ensures index.Success? <==> Holds(entries, id)
      ensures index.Success? ==> index.value < |entries| && entries[index.value].id == id
    {
      var i := 0;
      while i < |entries|
        invariant 0 <= i <= |entries| && forall k :: 0 <= k < i ==> entries[k].id != id
      {
        if entries[i].id == id {
          assert entries[i] in entries;
          return Success(i);
        }
        i := i + 1;
      }
      return UnknownArtifact;
    }

    method ExpiredIds(now: int) returns (expired: seq<string>)
      ensures forall id :: id in expired <==>
                exists k :: 0 <= k < |entries| && entries[k].expires <= now && entries[k].id == id
    {
      expired := [];
      var i := 0;
      while i < |entries|
        invariant 0 <= i <= |entries|
        invariant forall id :: id in expired <==>
                    exists k :: 0 <= k < i && entries[k].expires <= now && entries[k].id == id
      {
        if entries[i].expires <= now {
          expired := expired + [entries[i].id];
        }
        i := i + 1;
      }
    }

    method RemoveIfHeld(id: string)
      requires Counted()
      modifies this
      ensures Counted() && entries == Kept(old(entries), {id})
    {
      var index := Find(id);
      if index.Success? {
        Remove(index.value);
      } else {
        NotHeld(entries, id);
      }
    }

    static lemma OneMoreId(ids: seq<string>, i: nat)
      requires i < |ids|
      ensures Ids(ids[..i + 1]) == Ids(ids[..i]) + {ids[i]}
    {
      assert ids[..i + 1] == ids[..i] + [ids[i]];
    }

    method RemoveAll(ids: seq<string>)
      requires Counted()
      modifies this
      ensures Counted() && entries == Kept(old(entries), Ids(ids))
    {
      var i := 0;
      NothingRemoved(entries, Ids(ids[..0]));
      while i < |ids|
        invariant 0 <= i <= |ids| && Counted()
        invariant entries == Kept(old(entries), Ids(ids[..i]))
      {
        KeptTwice(old(entries), Ids(ids[..i]), ids[i]);
        OneMoreId(ids, i);
        RemoveIfHeld(ids[i]);
        i := i + 1;
      }
      assert ids[..i] == ids;
    }

    /** First the identifiers of what has expired, then their removal. */
    method EvictExpired(now: int)
      requires Valid()
      modifies this
      ensures Valid() && entries == Live(old(entries), now)
    {
      var expired := ExpiredIds(now);
      ExpiredTogether(entries, expired, now);
      LiveIsKept(entries, now, Ids(expired));
      KeptStaysDistinct(entries, Ids(expired));
      RemoveAll(expired);
    }

    /** Identifiers are distinct, so an expired one names only what has expired. */
    static lemma ExpiredTogether(entries: seq<Artifact>, expired: seq<string>, now: int)
      requires Distinct(entries)
      requires forall id :: id in expired <==>
                 exists k :: 0 <= k < |entries| && entries[k].expires <= now && entries[k].id == id
      ensures forall artifact :: artifact in entries ==> (artifact.id in Ids(expired) <==> artifact.expires <= now)
    {
      forall artifact | artifact in entries ensures artifact.id in Ids(expired) <==> artifact.expires <= now {
        var i :| 0 <= i < |entries| && entries[i] == artifact;
        if artifact.id in expired {
          var k :| 0 <= k < |entries| && entries[k].expires <= now && entries[k].id == artifact.id;
          assert k == i;
        }
      }
    }

    static function Ids(list: seq<string>): set<string> { set id | id in list }

    static lemma NotHeld(entries: seq<Artifact>, id: string)
      requires !Holds(entries, id)
      ensures Kept(entries, {id}) == entries
    {
      forall artifact | artifact in entries ensures artifact.id !in {id} {}
      NothingRemoved(entries, {id});
    }

    /** The loop never reads an empty store: an empty store fits. */
    method EvictToBounds()
      requires Counted()
      modifies this
      ensures Valid() && entries == Trimmed(bounds, old(entries))
    {
      while |entries| > bounds.maxArtifacts || totalBytes > bounds.maxBytes
        invariant Counted() && Trimmed(bounds, entries) == Trimmed(bounds, old(entries))
        decreases |entries|
      {
        assert entries[..0] + entries[1..] == entries[1..];
        Remove(0);
      }
    }

    /** The identifier is new: a universally unique number. */
    method PutText(id: string, size: nat, now: int) returns (result: Outcome<Artifact>)
      requires Valid() && !Holds(entries, id)
      modifies this
      ensures Valid()
      ensures size > bounds.maxBytes ==> result == TooLarge && entries == Live(old(entries), now)
      ensures size <= bounds.maxBytes ==>
                result == Success(Artifact(id, size, now + bounds.ttl))
                && entries == AfterPut(bounds, old(entries), result.value, now)
    {
      LiveWithin(entries, now);
      EvictExpired(now);
      if size > bounds.maxBytes {
        return TooLarge;
      }
      var artifact := Artifact(id, size, now + bounds.ttl);
      SizeAppend(entries, [artifact]);
      AppendDistinct(entries, artifact);
      entries := entries + [artifact];
      totalBytes := totalBytes + size;
      EvictToBounds();
      result := Success(artifact);
    }

    static lemma AppendDistinct(entries: seq<Artifact>, artifact: Artifact)
      requires Distinct(entries) && !Holds(entries, artifact.id)
      ensures Distinct(entries + [artifact])
    {
      forall k | 0 <= k < |entries| ensures entries[k].id != artifact.id {
        assert entries[k] in entries;
      }
    }

    /** A hit becomes the most recent artifact; nothing else moves. */
    method Get(id: string, now: int) returns (result: Outcome<Artifact>)
      requires Valid()
      modifies this
      ensures Valid()
      ensures result.Success? <==> Holds(Live(old(entries), now), id)
      ensures result.Success? ==> result.value.id == id && result.value in Live(old(entries), now)
                                  && entries == AfterGet(old(entries), result.value, now)
      ensures !result.Success? ==> result == UnknownArtifact && entries == Live(old(entries), now)
    {
      EvictExpired(now);
      var index := Find(id);
      if !index.Success? {
        return UnknownArtifact;
      }
      var artifact := entries[index.value];
      Remove(index.value);
      KeptWithin(Live(old(entries), now), {id});
      SizeAppend(entries, [artifact]);
      AppendDistinct(entries, artifact);
      entries := entries + [artifact];
      totalBytes := totalBytes + artifact.size;
      result := Success(artifact);
    }
  }
}
