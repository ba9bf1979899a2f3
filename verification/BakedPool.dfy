/** The pool of baked fonts: entries are marked when they are discarded, and squeezed out at the
    start of the next frame, with the lookup by id kept in step. */
module BakedPools {

  datatype Baked = Baked(id: nat, data: nat, wantDestroy: bool)

  /** The entries that are not to be destroyed, in order. */
  function Live(pool: seq<Baked>): (live: seq<Baked>)
    ensures |live| <= |pool| && forall i :: 0 <= i < |live| ==> !live[i].wantDestroy
  {
    if pool == [] then []
    else Live(pool[..|pool| - 1]) + if pool[|pool| - 1].wantDestroy then [] else [pool[|pool| - 1]]
  }

  lemma LiveNext(pool: seq<Baked>, k: nat)
    requires k < |pool|
    ensures Live(pool[..k + 1]) == Live(pool[..k]) + if pool[k].wantDestroy then [] else [pool[k]]
  {
    assert pool[..k + 1][..k] == pool[..k];
  }

  /** Marking one entry takes it out, and nothing else. */
  lemma {:induction false} LiveMarked(pool: seq<Baked>, k: nat)
    requires k < |pool| && !pool[k].wantDestroy
    ensures |Live(pool[k := pool[k].(wantDestroy := true)])| == |Live(pool)| - 1
  {
    var marked := pool[k := pool[k].(wantDestroy := true)];
    if k == |pool| - 1 {
      assert marked[..k] == pool[..k];
    } else {
      LiveMarked(pool[..|pool| - 1], k);
      assert marked[..|pool| - 1] == pool[..|pool| - 1][k := pool[k].(wantDestroy := true)];
    }
  }

  /** The lookup leads to the live entries, each by its id, and to nothing else. */
  ghost predicate Lookup(pool: seq<Baked>, byId: map<nat, nat>) {
    && (forall i :: 0 <= i < |pool| && !pool[i].wantDestroy ==> pool[i].id in byId && byId[pool[i].id] == i)
    && (forall id :: id in byId ==> byId[id] < |pool| && pool[byId[id]].id == id && !pool[byId[id]].wantDestroy)
  }

  /** Collecting has dealt with the entries before `src` and kept `dst` of them. */
  ghost predicate Squeezed(pool: seq<Baked>, byId0: map<nat, nat>, now: seq<Baked>, byId: map<nat, nat>, dst: nat,
      src: nat) {
    && dst <= src <= |pool| == |now| && now[..dst] == Live(pool[..src]) && now[src..] == pool[src..]
    && Followed(pool, byId0, now, byId, dst, src)
  }

  /** The lookup follows the entries that were kept. */
  ghost predicate Followed(pool: seq<Baked>, byId0: map<nat, nat>, now: seq<Baked>, byId: map<nat, nat>, dst: nat,
      src: nat)
    requires dst <= src <= |pool| == |now|
  {
    && byId.Keys == byId0.Keys
    && (forall id :: id in byId0 ==>
          if byId0[id] < src then byId[id] < dst && now[byId[id]] == pool[byId0[id]] else byId[id] == byId0[id])
    && (forall i :: 0 <= i < dst ==> now[i].id in byId && byId[now[i].id] == i)
  }

  lemma SqueezeStart(pool: seq<Baked>, byId: map<nat, nat>)
    requires Lookup(pool, byId)
    ensures Squeezed(pool, byId, pool, byId, 0, 0)
  {
    assert pool[..0] == [];
  }

  lemma SqueezeSkip(pool: seq<Baked>, byId0: map<nat, nat>, now: seq<Baked>, byId: map<nat, nat>, dst: nat, src: nat)
    requires Lookup(pool, byId0) && Squeezed(pool, byId0, now, byId, dst, src) && src < |pool|
    ensures now[src] == pool[src] && now[src := now[src]] == now
    ensures pool[src].wantDestroy ==> Squeezed(pool, byId0, now, byId, dst, src + 1)
    ensures !pool[src].wantDestroy && dst == src ==> byId[pool[src].id := dst] == byId
  {
    LiveNext(pool, src);
    assert now[src] == now[src..][0] && pool[src] == pool[src..][0];
    assert now[src + 1..] == now[src..][1..] && pool[src + 1..] == pool[src..][1..];
  }

  lemma SqueezeKeep(pool: seq<Baked>, byId0: map<nat, nat>, now: seq<Baked>, byId: map<nat, nat>, dst: nat, src: nat)
    requires Lookup(pool, byId0) && Squeezed(pool, byId0, now, byId, dst, src) && src < |pool| && !pool[src].wantDestroy
    requires now[src] == pool[src]
    ensures Squeezed(pool, byId0, now[dst := now[src]], byId[pool[src].id := dst], dst + 1, src + 1)
  {
    FollowKeep(pool, byId0, now, byId, dst, src);
    hide Followed, Lookup;
    LiveNext(pool, src);
    var now' := now[dst := now[src]];
    assert now'[..dst + 1] == now[..dst] + [pool[src]];
    assert now'[src + 1..] == now[src..][1..] && pool[src + 1..] == pool[src..][1..];
  }

  lemma FollowKeep(pool: seq<Baked>, byId0: map<nat, nat>, now: seq<Baked>, byId: map<nat, nat>, dst: nat, src: nat)
    requires dst <= src < |pool| == |now| && Lookup(pool, byId0) && Followed(pool, byId0, now, byId, dst, src)
    requires now[src] == pool[src] && !pool[src].wantDestroy
    ensures Followed(pool, byId0, now[dst := now[src]], byId[pool[src].id := dst], dst + 1, src + 1)
  {
    var id := pool[src].id;
    assert byId0[id] == src && byId[id] == src;
    forall i | 0 <= i < dst ensures now[i].id != id {
      assert byId[now[i].id] == i;
    }
  }

  lemma SqueezeEnd(pool: seq<Baked>, byId0: map<nat, nat>, now: seq<Baked>, byId: map<nat, nat>, dst: nat)
    requires Lookup(pool, byId0) && Squeezed(pool, byId0, now, byId, dst, |pool|)
    ensures now[..dst] == Live(pool) && Lookup(now[..dst], byId) && Live(now[..dst]) == now[..dst]
    ensures forall id :: id in byId ==> id in byId0 && now[..dst][byId[id]] == pool[byId0[id]]
  {
    assert pool[..|pool|] == pool;
    LiveAll(now[..dst]);
  }

  class Pool {
    var entries: seq<Baked>
    var byId: map<nat, nat>         // positions of the entries that are not discarded
    var discardedCount: nat

    ghost predicate Valid()
      reads this
    {
      |entries| == |Live(entries)| + discardedCount && Lookup(entries, byId)
    }

    constructor ()
      ensures Valid() && entries == [] && byId == map[]
    {
      entries, byId, discardedCount := [], map[], 0;
    }

    method Add(id: nat, data: nat)
      requires Valid() && id !in byId
      modifies this
      ensures Valid() && entries == old(entries) + [Baked(id, data, false)] && byId == old(byId)[id := |old(entries)|]
    {
      entries := entries + [Baked(id, data, false)];
      byId := byId[id := |entries| - 1];
      assert entries[..|entries| - 1] == old(entries);
    }

    /** Only marks the entry: pointers into the pool stay good until the next frame. */
    method Discard(k: nat)
      requires Valid() && k < |entries| && !entries[k].wantDestroy
      modifies this
      ensures Valid() && entries == old(entries)[k := old(entries)[k].(wantDestroy := true)]
      ensures byId == old(byId) - {old(entries)[k].id} && discardedCount == old(discardedCount) + 1
    {
      LiveMarked(entries, k);
      byId := byId - {entries[k].id};
      discardedCount := discardedCount + 1;
      entries := entries[k := entries[k].(wantDestroy := true)];
    }

    /** Squeezes the discarded entries out. The others keep their order and their contents, and
        every id leads to the same entry as before, wherever it is now. */
    method Collect()
      requires Valid()
      modifies this
      ensures Valid() && discardedCount == 0
      ensures entries == Live(old(entries)) && byId.Keys == old(byId).Keys
      ensures forall id :: id in byId ==> id in old(byId) && entries[byId[id]] == old(entries)[old(byId)[id]]
    {
      hide Lookup, Squeezed, Followed;
      ghost var pool, byId0 := entries, byId;
      if discardedCount > 0 {
        var dst := Squeeze();
        SqueezeEnd(pool, byId0, entries, byId, dst);
        SqueezeBounds(pool, byId0, entries, byId, dst, |pool|);
        entries := entries[..|entries| - discardedCount];
        discardedCount := 0;
      } else {
        NoneMarked(entries);
        LookupSelf(entries, byId);
      }
    }

    /** Moves the live entries to the front, in order. */
    method Squeeze() returns (dst: nat)
      requires Lookup(entries, byId)
      modifies this`entries, this`byId
      ensures Squeezed(old(entries), old(byId), entries, byId, dst, |old(entries)|)
    {
      hide Lookup, Squeezed, Followed;
      ghost var pool, byId0 := entries, byId;
      SqueezeStart(pool, byId0);
      dst := 0;
      for src := 0 to |entries|
        invariant Squeezed(pool, byId0, entries, byId, dst, src) && dst <= src && |entries| == |pool|
      {
        SqueezeBounds(pool, byId0, entries, byId, dst, src);
        SqueezeSkip(pool, byId0, entries, byId, dst, src);
        if entries[src].wantDestroy {
          continue;
        }
        SqueezeKeep(pool, byId0, entries, byId, dst, src);
        var at := dst;
        dst := dst + 1;
        if at == src {
          continue;
        }
        entries := entries[at := entries[src]];
        byId := byId[entries[at].id := at];
      }
    }
  }

  lemma SqueezeBounds(pool: seq<Baked>, byId0: map<nat, nat>, now: seq<Baked>, byId: map<nat, nat>, dst: nat, src: nat)
    requires Squeezed(pool, byId0, now, byId, dst, src)
    ensures |now| == |pool| && dst <= src && byId.Keys == byId0.Keys
    ensures dst == |Live(pool[..src])| && (src == |pool| ==> dst == |Live(pool)|)
  {
    if src == |pool| { assert pool[..src] == pool; }
  }

  lemma {:induction false} NoneMarked(pool: seq<Baked>)
    requires |Live(pool)| == |pool|
    ensures Live(pool) == pool
  {
    if pool != [] {
      NoneMarked(pool[..|pool| - 1]);
    }
  }

  lemma LookupSelf(pool: seq<Baked>, byId: map<nat, nat>)
    requires Lookup(pool, byId)
    ensures forall id :: id in byId ==> byId[id] < |pool|
  {
  }

  lemma {:induction false} LiveAll(pool: seq<Baked>)
    requires forall i :: 0 <= i < |pool| ==> !pool[i].wantDestroy
    ensures Live(pool) == pool
  {
    if pool != [] {
      LiveAll(pool[..|pool| - 1]);
    }
  }
}
