/**
 What one call of the index API does to the entries, said in terms of the hits a counter
 stands for and of the fields of an entry.
 */
module IndexEffects {
  import opened Entries
  import opened Trie
  import opened Journal
  import F = Fibonacci

  /** The entries after one operation. */
  function After(n: Node, op: Op, size: nat): Map
    requires Valid(n, size)
  {
    ApplyRefinesMap(n, op, size);
    Model(Apply(n, op, size).value.node)
  }

  /** The same hashes, and the same entry for every other one. */
  predicate OnlyAt(m: Map, m': Map, h: Hash)
  {
    m'.Keys == m.Keys && forall k | k in m && k != h :: m'[k] == m[k]
  }

  /** The counter stands for one hit more; every other field is as it was. */
  predicate OneHitMore(e: Entry, e': Entry)
  {
    && F.WellFormed(e'.counter) && F.Hits(e'.counter) == F.Hits(e.counter) + 1
    && e'.hash == e.hash && e'.sectionId == e.sectionId && e'.sectionIndex == e.sectionIndex
    && e'.ejectionDate == e.ejectionDate && e'.ephemeralCount == e.ephemeralCount && e'.pinCount == e.pinCount
  }

  /** An operation on a hash the index does not have changes no entry. */
  lemma {:induction false} AbsentUnchanged(n: Node, op: Op, size: nat)
    requires Valid(n, size) && !op.AddOp? && op.hash !in Model(n)
    ensures After(n, op, size) == Model(n)
  {
    hide Model;
    ApplyRefinesMap(n, op, size);
  }

  /** A get counts one hit on its entry and changes nothing else. */
  lemma {:induction false} GetCounts(n: Node, h: Hash, size: nat)
    requires Valid(n, size) && h in Model(n)
    requires F.WellFormed(Model(n)[h].counter) && F.Hits(Model(n)[h].counter) != F.LAST
    ensures var m' := After(n, GetOp(h), size);
            OnlyAt(Model(n), m', h) && OneHitMore(Model(n)[h], m'[h])
  {
    hide Model, F.Hits, F.WellFormed, F.Incremented;
    ApplyRefinesMap(n, GetOp(h), size);
    F.IncrementExact(Model(n)[h].counter);
  }

  /** Adding a new entry adds exactly that entry; adding a hash that is there counts one
      hit on the entry that is there. */
  lemma {:induction false} AddInserts(n: Node, e: Entry, size: nat)
    requires Valid(n, size)
    ensures e.hash !in Model(n) ==> After(n, AddOp(e), size) == Model(n)[e.hash := e]
    ensures && e.hash in Model(n) && F.WellFormed(Model(n)[e.hash].counter)
            && F.Hits(Model(n)[e.hash].counter) != F.LAST ==>
              var m' := After(n, AddOp(e), size);
              OnlyAt(Model(n), m', e.hash) && OneHitMore(Model(n)[e.hash], m'[e.hash])
  {
    hide Model, F.Hits, F.WellFormed, F.Incremented;
    ApplyRefinesMap(n, AddOp(e), size);
    if e.hash in Model(n) && F.WellFormed(Model(n)[e.hash].counter) {
      F.IncrementExact(Model(n)[e.hash].counter);
    }
  }

  /** A removal takes out its hash and nothing else. */
  lemma {:induction false} RemoveTakesOut(n: Node, h: Hash, size: nat)
    requires Valid(n, size)
    ensures var m' := After(n, RemoveOp(h), size);
            h !in m' && m'.Keys == Model(n).Keys - {h} && forall k | k in m' :: m'[k] == Model(n)[k]
  {
    hide Model;
    ApplyRefinesMap(n, RemoveOp(h), size);
  }

  /** An ejection sets the date of its entry and nothing else. */
  lemma {:induction false} EjectSetsDate(n: Node, h: Hash, date: U64, size: nat)
    requires Valid(n, size) && h in Model(n)
    ensures var e, m' := Model(n)[h], After(n, EjectOp(h, date), size);
            && OnlyAt(Model(n), m', h)
            && m'[h].ejectionDate == date && m'[h].hash == e.hash && m'[h].counter == e.counter
            && m'[h].sectionId == e.sectionId && m'[h].sectionIndex == e.sectionIndex
            && m'[h].ephemeralCount == e.ephemeralCount && m'[h].pinCount == e.pinCount
  {
    hide Model;
    ApplyRefinesMap(n, EjectOp(h, date), size);
  }

  /** A metadata write sets claims and pins of its entry and nothing else. */
  lemma {:induction false} MetaSetsCounts(n: Node, h: Hash, ephemeral: U16, pins: U32, size: nat)
    requires Valid(n, size) && h in Model(n)
    ensures var e, m' := Model(n)[h], After(n, MetaOp(h, ephemeral, pins), size);
            && OnlyAt(Model(n), m', h)
            && m'[h].ephemeralCount == ephemeral && m'[h].pinCount == pins
            && m'[h].hash == e.hash && m'[h].counter == e.counter && m'[h].ejectionDate == e.ejectionDate
            && m'[h].sectionId == e.sectionId && m'[h].sectionIndex == e.sectionIndex
  {
    hide Model;
    ApplyRefinesMap(n, MetaOp(h, ephemeral, pins), size);
  }

  function Gets(h: Hash, k: nat): seq<Op>
  {
    seq(k, _ => GetOp(h))
  }

  /** An entry that was added fresh stands for exactly k hits after k gets, as long as the
      counter can count them. */
  lemma {:induction false} GetsCount(n: Node, e: Entry, size: nat, k: nat)
    requires Valid(n, size) && e.hash !in Model(n) && e.counter == F.Fresh && k <= F.LAST
    ensures var m := Model(Run(n, [AddOp(e)] + Gets(e.hash, k), size).node);
            && m.Keys == Model(n).Keys + {e.hash} && (forall x | x in Model(n) :: m[x] == Model(n)[x])
            && F.WellFormed(m[e.hash].counter) && F.Hits(m[e.hash].counter) == k
            && m[e.hash] == e.(counter := m[e.hash].counter)
  {
    hide Model, F.Incremented;
    var ops := [AddOp(e)] + Gets(e.hash, k);
    var before := ops[..|ops| - 1];
    ValidKeys(n, size);
    if k == 0 {
      assert before == [] && Run(n, before, size).node == n;
      AddInserts(n, e, size);
    } else {
      assert before == [AddOp(e)] + Gets(e.hash, k - 1);
      GetsCount(n, e, size, k - 1);
      GetCounts(Run(n, before, size).node, e.hash, size);
    }
  }

  lemma ValidKeys(n: Node, size: nat)
    requires Valid(n, size)
    ensures forall h | h in Model(n) :: Model(n)[h].hash == h
  {
    KeysFit(n, [], size);
  }
}
