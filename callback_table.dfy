/** The table `caps_callbacks` of FileCache: a std::map from a capability
    mask to the list of completions waiting for that mask to be implemented,
    kept as an association list in the map's own key order. */
module CallbackTable {
  import opened Caps

  /** A completion (a C++ `Context*`), identified by a number. */
  type Ctx = nat

  /** One entry of the map: the key mask and its list of completions. */
  datatype Group = Group(key: CInt, waiters: seq<Ctx>)

  type Table = seq<Group>

  /** Keys strictly ascending, as std::map<int, ...> iterates them; hence unique. */
  predicate Sorted(t: Table) {
    forall i, j :: 0 <= i < j < |t| ==> t[i].key < t[j].key
  }

  /** Every entry holds at least one completion: entries are only created by
      the push_back of set_caps and only removed whole. */
  predicate NoEmptyGroup(t: Table) {
    forall i :: 0 <= i < |t| ==> t[i].waiters != []
  }

  predicate WellFormed(t: Table) {
    Sorted(t) && NoEmptyGroup(t)
  }

  /** The list stored under `k`, or the empty list when `k` is absent. */
  function Lookup(t: Table, k: CInt): seq<Ctx> {
    if t == [] then []
    else if t[0].key == k then t[0].waiters
    else Lookup(t[1..], k)
  }

  /** Every completion still waiting in the table, in iteration order. */
  function Pending(t: Table): seq<Ctx> {
    if t == [] then [] else t[0].waiters + Pending(t[1..])
  }

  /** `caps_callbacks[k].push_back(c)`: operator[] creates the entry for `k`
      at its place in key order if it is absent, then `c` goes at the end of
      its list. */
  function Enqueue(t: Table, k: CInt, c: Ctx): Table {
    if t == [] then [Group(k, [c])]
    else if t[0].key == k then [Group(k, t[0].waiters + [c])] + t[1..]
    else if k < t[0].key then [Group(k, [c])] + t
    else [t[0]] + Enqueue(t[1..], k, c)
  }

  /** The entries check_caps leaves in the table: those not implemented. */
  function Keep(t: Table, used: Mask): Table {
    if t == [] then []
    else if Implemented(t[0].key, used) then Keep(t[1..], used)
    else [t[0]] + Keep(t[1..], used)
  }

  /** The completions check_caps finishes: the lists of the implemented
      entries, entry by entry in key order, each list in its own order. */
  function Fire(t: Table, used: Mask): seq<Ctx> {
    if t == [] then []
    else if Implemented(t[0].key, used) then t[0].waiters + Fire(t[1..], used)
    else Fire(t[1..], used)
  }

  /** No completion occurs twice. */
  ghost predicate Distinct(s: seq<Ctx>) {
    forall c :: multiset(s)[c] <= 1
  }

  // ---------------------------------------------------------------------
  // Enqueue: the std::map semantics of set_caps' push_back

  /** Every key of `t` comes after `b` in key order. */
  predicate AllAfter(b: CInt, t: Table) {
    forall i :: 0 <= i < |t| ==> b < t[i].key
  }

  /** Enqueue adds only the key `k`, so a bound below every old key and
      below `k` stays a bound. */
  lemma {:induction false} EnqueueAllAfter(b: CInt, t: Table, k: CInt, c: Ctx)
    requires AllAfter(b, t) && b < k
    ensures AllAfter(b, Enqueue(t, k, c))
  {
    if t != [] && t[0].key < k {
      EnqueueAllAfter(b, t[1..], k, c);
    }
  }

  /** Enqueue keeps the table in key order with no empty entry. */
  lemma {:induction false} EnqueueWellFormed(t: Table, k: CInt, c: Ctx)
    requires WellFormed(t)
    ensures WellFormed(Enqueue(t, k, c))
  {
    var t' := Enqueue(t, k, c);
    if t == [] {
    } else if t[0].key == k {
      assert forall i :: 0 <= i < |t| ==> t'[i].key == t[i].key;
    } else if k < t[0].key {
      forall i, j | 0 <= i < j < |t'| ensures t'[i].key < t'[j].key {
        if i == 0 {
          assert t'[j] == t[j - 1];
        } else {
          assert t'[i] == t[i - 1] && t'[j] == t[j - 1];
        }
      }
    } else {
      var rest := Enqueue(t[1..], k, c);
      EnqueueWellFormed(t[1..], k, c);
      assert AllAfter(t[0].key, t[1..]);
      EnqueueAllAfter(t[0].key, t[1..], k, c);
      forall i, j | 0 <= i < j < |t'| ensures t'[i].key < t'[j].key {
        if i == 0 {
          assert t'[j] == rest[j - 1];
        } else {
          assert t'[i] == rest[i - 1] && t'[j] == rest[j - 1];
        }
      }
    }
  }

  /** After Enqueue, the list under `k` is the old list with `c` appended,
      and every other key's list is unchanged. */
  lemma {:induction false} EnqueueLookup(t: Table, k: CInt, c: Ctx, k': CInt)
    requires Sorted(t)
    ensures Lookup(Enqueue(t, k, c), k') ==
            if k' == k then Lookup(t, k) + [c] else Lookup(t, k')
  {
    if t == [] {
    } else if t[0].key == k {
    } else if k < t[0].key {
      if k' == k {
        LookupAbsent(t, k);
      }
    } else {
      EnqueueLookup(t[1..], k, c, k');
    }
  }

  /** A key ordered before every key of a sorted table is absent from it. */
  lemma {:induction false} LookupAbsent(t: Table, k: CInt)
    requires Sorted(t)
    requires t != [] && k < t[0].key
    ensures Lookup(t, k) == []
  {
    if |t| > 1 {
      assert t[0].key < t[1].key;
      LookupAbsent(t[1..], k);
    }
  }

  /** Enqueue adds exactly the completion `c` to those pending. */
  lemma {:induction false} EnqueuePending(t: Table, k: CInt, c: Ctx)
    ensures multiset(Pending(Enqueue(t, k, c))) == multiset(Pending(t)) + multiset{c}
  {
    if t != [] && t[0].key < k {
      EnqueuePending(t[1..], k, c);
      assert Enqueue(t, k, c)[1..] == Enqueue(t[1..], k, c);
    } else if t != [] && t[0].key == k {
      assert Enqueue(t, k, c)[1..] == t[1..];
    } else if t != [] {
      assert Enqueue(t, k, c)[1..] == t;
    }
  }

  // ---------------------------------------------------------------------
  // Keep and Fire: the sweep of check_caps

  /** The entries kept are exactly the original entries whose key is not
      implemented, unchanged. */
  lemma {:induction false} KeepMembers(t: Table, used: Mask, g: Group)
    ensures g in Keep(t, used) <==> g in t && !Implemented(g.key, used)
  {
    if t != [] {
      KeepMembers(t[1..], used, g);
      assert t == [t[0]] + t[1..];
    }
  }

  /** Seen through the map: an implemented key is gone, any other key keeps
      its list. */
  lemma {:induction false} KeepLookup(t: Table, used: Mask, k: CInt)
    ensures Lookup(Keep(t, used), k) == if Implemented(k, used) then [] else Lookup(t, k)
  {
    if t != [] {
      KeepLookup(t[1..], used, k);
    }
  }

  /** check_caps leaves the table in key order with no empty entry. */
  lemma {:induction false} KeepWellFormed(t: Table, used: Mask)
    requires WellFormed(t)
    ensures WellFormed(Keep(t, used))
  {
    if t != [] {
      var rest := Keep(t[1..], used);
      KeepWellFormed(t[1..], used);
      forall j | 0 <= j < |rest| ensures t[0].key < rest[j].key && rest[j] in t[1..] {
        KeepMembers(t[1..], used, rest[j]);
      }
    }
  }

  /** Every pending completion is either finished by the sweep or still
      waiting afterwards, and not both. */
  lemma {:induction false} FireAccounting(t: Table, used: Mask)
    ensures multiset(Fire(t, used)) + multiset(Pending(Keep(t, used))) == multiset(Pending(t))
  {
    if t != [] {
      FireAccounting(t[1..], used);
    }
  }

  /** A completion is finished by the sweep exactly when it waits in an entry
      whose key is implemented. */
  lemma {:induction false} FireMembers(t: Table, used: Mask, c: Ctx)
    ensures c in Fire(t, used) <==>
            exists i :: 0 <= i < |t| && Implemented(t[i].key, used) && c in t[i].waiters
  {
    if t != [] {
      FireMembers(t[1..], used, c);
      if c in Fire(t[1..], used) {
        var i :| 0 <= i < |t[1..]| && Implemented(t[1..][i].key, used) && c in t[1..][i].waiters;
        assert Implemented(t[i + 1].key, used) && c in t[i + 1].waiters;
      }
      if i :| 0 < i < |t| && Implemented(t[i].key, used) && c in t[i].waiters {
        assert Implemented(t[1..][i - 1].key, used) && c in t[1..][i - 1].waiters;
      }
    }
  }

  /** When the file uses no capability at all, nothing is ever implemented:
      the sweep finishes nothing and keeps every entry. */
  lemma {:induction false} IdleSweepKeepsAll(t: Table)
    ensures Fire(t, 0) == [] && Keep(t, 0) == t
  {
    if t != [] {
      IdleSweepKeepsAll(t[1..]);
    }
  }

  /** Processing one more entry at the end of a prefix (the loop step of
      check_caps). */
  lemma {:induction false} SweepSnoc(t: Table, g: Group, used: Mask)
    ensures Keep(t + [g], used) == Keep(t, used) + (if Implemented(g.key, used) then [] else [g])
    ensures Fire(t + [g], used) == Fire(t, used) + (if Implemented(g.key, used) then g.waiters else [])
  {
    if t == [] {
      assert [g][1..] == [];
    } else {
      assert (t + [g])[0] == t[0];
      assert (t + [g])[1..] == t[1..] + [g];
      SweepSnoc(t[1..], g, used);
      if Implemented(t[0].key, used) {
      } else {
        assert Keep(t + [g], used) == [t[0]] + Keep(t[1..] + [g], used);
      }
    }
  }

  /** One step of check_caps' loop over a table that is being erased in
      place: `cur` holds the kept part of the first `done` entries of `t`
      followed by the entries not yet visited, and `i` points at the next
      entry to visit. Erasing it when implemented, or stepping past it when
      not, restores the same shape one entry further on. */
  lemma SweepStep(t: Table, done: nat, used: Mask, cur: Table, i: nat)
    requires done < |t|
    requires cur == Keep(t[..done], used) + t[done..]
    requires i == |Keep(t[..done], used)|
    ensures i < |cur| && cur[i] == t[done]
    ensures Fire(t[..done + 1], used) == Fire(t[..done], used) + (if Implemented(t[done].key, used) then t[done].waiters else [])
    ensures Implemented(t[done].key, used) ==>
              cur[..i] + cur[i + 1..] == Keep(t[..done + 1], used) + t[done + 1..] && i == |Keep(t[..done + 1], used)|
    ensures !Implemented(t[done].key, used) ==>
              cur == Keep(t[..done + 1], used) + t[done + 1..] && i + 1 == |Keep(t[..done + 1], used)|
  {
    assert t[..done + 1] == t[..done] + [t[done]];
    SweepSnoc(t[..done], t[done], used);
    assert t[done..] == [t[done]] + t[done + 1..];
    assert cur[..i] == Keep(t[..done], used);
    assert cur[i + 1..] == t[done + 1..];
  }

  // ---------------------------------------------------------------------
  // One-shot firing

  /** The sweep moves completions from the table to the finished log without
      duplicating any: if none occurred twice before, none does after. */
  lemma SweepOneShot(fired: seq<Ctx>, t: Table, used: Mask)
    requires Distinct(fired + Pending(t))
    ensures Distinct(fired + Fire(t, used) + Pending(Keep(t, used)))
  {
    FireAccounting(t, used);
    assert multiset(fired + Fire(t, used) + Pending(Keep(t, used))) == multiset(fired + Pending(t));
  }

  /** A completion not seen before may be enqueued without breaking one-shot
      firing. */
  lemma EnqueueOneShot(fired: seq<Ctx>, t: Table, k: CInt, c: Ctx)
    requires Distinct(fired + Pending(t))
    requires c !in fired && c !in Pending(t)
    ensures Distinct(fired + Pending(Enqueue(t, k, c)))
  {
    EnqueuePending(t, k, c);
    assert multiset(fired + Pending(Enqueue(t, k, c))) == multiset(fired + Pending(t)) + multiset{c};
  }

  /** A completion not seen before may be finished at once without breaking
      one-shot firing. */
  lemma FinishOneShot(fired: seq<Ctx>, t: Table, c: Ctx)
    requires Distinct(fired + Pending(t))
    requires c !in fired && c !in Pending(t)
    ensures Distinct(fired + [c] + Pending(t))
  {
    assert multiset(fired + [c] + Pending(t)) == multiset(fired + Pending(t)) + multiset{c};
  }

  // ---------------------------------------------------------------------
  // set_caps as a whole: enqueue under the new mask, then sweep

  /** A completion listed under some key is pending. */
  lemma {:induction false} LookupPending(t: Table, k: CInt, c: Ctx)
    requires c in Lookup(t, k)
    ensures c in Pending(t)
  {
    if t[0].key != k {
      LookupPending(t[1..], k, c);
    }
  }

  /** A completion listed under an implemented key is finished by the sweep. */
  lemma {:induction false} LookupFire(t: Table, k: CInt, used: Mask, c: Ctx)
    requires c in Lookup(t, k) && Implemented(k, used)
    ensures c in Fire(t, used)
  {
    if t[0].key != k {
      LookupFire(t[1..], k, used, c);
    }
  }

  /** The completion attached by set_caps is finished at once exactly when
      its own key is implemented; otherwise it ends the list under that key,
      behind the completions that were there before. */
  lemma SetCapsOutcome(t: Table, caps: CInt, c: Ctx, used: Mask)
    requires Sorted(t)
    requires c !in Pending(t)
    ensures c in Fire(Enqueue(t, caps, c), used) <==> Implemented(caps, used)
    ensures !Implemented(caps, used) ==>
              Lookup(Keep(Enqueue(t, caps, c), used), caps) == Lookup(t, caps) + [c]
  {
    var t' := Enqueue(t, caps, c);
    EnqueueLookup(t, caps, c, caps);
    assert c in Lookup(t', caps);
    KeepLookup(t', used, caps);
    if Implemented(caps, used) {
      LookupFire(t', caps, used, c);
    } else if c in Fire(t', used) {
      LookupPending(Keep(t', used), caps, c);
      EnqueuePending(t, caps, c);
      FireAccounting(t', used);
      assert false;
    }
  }
}
