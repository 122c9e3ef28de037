/**
 * The bookkeeping of the compiler's IR generator (noder irgen.go): the
 * queue of tasks deferred until all declarations are processed, the drain
 * loop that runs them, the -complete report of function declarations
 * without a body, the removal of generic function declarations from the
 * package's declaration list, and the layout of a dictionary.
 *
 * A task is an abstract value: running it records its id and queues the
 * tasks it spawns, as a deferred function that itself calls later would.
 */
module IRGen {

  // ---------------------------------------------------------------------
  // Deferred tasks.

  /** A deferred task: its id, and the tasks it queues when it runs. */
  datatype Task = Task(id: nat, spawns: seq<Task>)

  /** The number of tasks in a queue, counting those they spawn, transitively. */
  function Total(ts: seq<Task>): nat
    decreases ts
  {
    if ts == [] then 0 else 1 + Total(ts[0].spawns) + Total(ts[1..])
  }

  lemma {:induction false} TotalAppend(a: seq<Task>, b: seq<Task>)
    ensures Total(a + b) == Total(a) + Total(b)
    decreases a
  {
    if a != [] {
      assert (a + b)[0] == a[0] && (a + b)[1..] == a[1..] + b;
      TotalAppend(a[1..], b);
    } else {
      assert a + b == b;
    }
  }

  /**
   * The ids of the tasks run by draining a queue that is popped from the
   * front, each task's spawns joining the back.
   */
  function RunOrder(q: seq<Task>): seq<nat>
    decreases Total(q)
  {
    if q == [] then []
    else
      TotalAppend(q[1..], q[0].spawns);
      [q[0].id] + RunOrder(q[1..] + q[0].spawns)
  }

  /** The ids of a queue's tasks, in queue order. */
  function Ids(q: seq<Task>): (ids: seq<nat>)
    ensures |ids| == |q| && forall i :: 0 <= i < |q| ==> ids[i] == q[i].id
  {
    seq(|q|, i requires 0 <= i < |q| => q[i].id)
  }

  /** The ids of all tasks of a queue and of everything they spawn. */
  function AllIds(ts: seq<Task>): multiset<nat>
    decreases ts
  {
    if ts == [] then multiset{} else multiset{ts[0].id} + AllIds(ts[0].spawns) + AllIds(ts[1..])
  }

  lemma {:induction false} AllIdsAppend(a: seq<Task>, b: seq<Task>)
    ensures AllIds(a + b) == AllIds(a) + AllIds(b)
    decreases a
  {
    if a != [] {
      assert (a + b)[0] == a[0] && (a + b)[1..] == a[1..] + b;
      AllIdsAppend(a[1..], b);
    } else {
      assert a + b == b;
    }
  }

  /** Draining runs every queued task and every task spawned on the way, each exactly once. */
  lemma {:induction false} RunOrderRunsAll(q: seq<Task>)
    ensures multiset(RunOrder(q)) == AllIds(q)
    ensures |RunOrder(q)| == Total(q)
    decreases Total(q)
  {
    if q != [] {
      TotalAppend(q[1..], q[0].spawns);
      AllIdsAppend(q[1..], q[0].spawns);
      RunOrderRunsAll(q[1..] + q[0].spawns);
    }
  }

  /** Draining is first in, first out: the queued tasks run first, in queue order, before anything they spawn. */
  lemma {:induction false} RunOrderFifo(q: seq<Task>)
    ensures |q| <= |RunOrder(q)| && RunOrder(q)[..|q|] == Ids(q)
    decreases Total(q)
  {
    if q != [] {
      var q' := q[1..] + q[0].spawns;
      TotalAppend(q[1..], q[0].spawns);
      RunOrderFifo(q');
      assert RunOrder(q) == [q[0].id] + RunOrder(q');
      assert RunOrder(q')[..|q| - 1] == Ids(q')[..|q| - 1];
      assert Ids(q')[..|q| - 1] == Ids(q[1..]);
      assert Ids(q) == [q[0].id] + Ids(q[1..]);
    }
  }

  /** A task queued with later runs after every task queued before it. */
  lemma LaterRunsAfterQueued(q: seq<Task>, t: Task)
    ensures |q| < |RunOrder(q + [t])| && RunOrder(q + [t])[|q|] == t.id
    ensures RunOrder(q + [t])[..|q|] == Ids(q)
  {
    RunOrderFifo(q + [t]);
    assert Ids(q + [t])[..|q|] == Ids(q);
    assert RunOrder(q + [t])[..|q|] == RunOrder(q + [t])[..|q| + 1][..|q|];
  }

  // ---------------------------------------------------------------------
  // Declarations.

  /**
   * A top-level declaration: whether it is a function declaration
   * (ODCLFUNC), whether its type has type parameters, whether it has a
   * body, and its linkname.
   */
  datatype Decl = Decl(isFunc: bool, generic: bool, hasBody: bool, linkname: string)

  /** A declaration that survives the removal of generic functions. */
  predicate Kept(d: Decl)
  {
    !d.isFunc || !d.generic
  }

  /** The declarations that are kept, in their original order. */
  function Keep(ds: seq<Decl>): seq<Decl>
  {
    if ds == [] then []
    else Keep(ds[..|ds| - 1]) + (if Kept(ds[|ds| - 1]) then [ds[|ds| - 1]] else [])
  }

  lemma {:induction false} KeepAppend(a: seq<Decl>, b: seq<Decl>)
    ensures Keep(a + b) == Keep(a) + Keep(b)
    decreases |b|
  {
    if b == [] {
      assert a + b == a;
    } else {
      var b' := b[..|b| - 1];
      assert (a + b)[..|a + b| - 1] == a + b';
      assert (a + b)[|a + b| - 1] == b[|b| - 1];
      KeepAppend(a, b');
    }
  }

  /** Every kept declaration is one that is not a generic function. */
  lemma {:induction false} KeepOnlyKept(ds: seq<Decl>)
    ensures forall k :: 0 <= k < |Keep(ds)| ==> Kept(Keep(ds)[k])
    decreases |ds|
  {
    if ds != [] {
      KeepOnlyKept(ds[..|ds| - 1]);
    }
  }

  /** Each declaration that is not a generic function is kept as often as it occurs; no other is kept. */
  lemma {:induction false} KeepCounts(ds: seq<Decl>, d: Decl)
    ensures multiset(Keep(ds))[d] == if Kept(d) then multiset(ds)[d] else 0
    decreases |ds|
  {
    if ds != [] {
      var init := ds[..|ds| - 1];
      var last := ds[|ds| - 1];
      assert ds == init + [last];
      assert multiset(ds) == multiset(init) + multiset{last};
      KeepCounts(init, d);
    }
  }

  /** Removing the generic functions a second time removes nothing. */
  lemma {:induction false} KeepIdempotent(ds: seq<Decl>)
    ensures Keep(Keep(ds)) == Keep(ds)
    decreases |ds|
  {
    if ds != [] {
      var init := ds[..|ds| - 1];
      var last := ds[|ds| - 1];
      KeepIdempotent(init);
      if Kept(last) {
        var x := Keep(init);
        assert Keep(ds) == x + [last];
        assert (x + [last])[..|x + [last]| - 1] == x;
        assert Keep(x + [last]) == Keep(x) + [last];
      } else {
        assert Keep(ds) == Keep(init);
      }
    }
  }

  /** The function declarations reported by -complete: no body and no linkname. */
  predicate MissingBody(d: Decl)
  {
    d.isFunc && !d.hasBody && d.linkname == ""
  }

  /** The positions, from k on, of declarations reported as missing a function body. */
  function MissingBodies(ds: seq<Decl>, k: nat): seq<nat>
    requires k <= |ds|
    decreases |ds| - k
  {
    if k == |ds| then []
    else (if MissingBody(ds[k]) then [k] else []) + MissingBodies(ds, k + 1)
  }

  /** The report lists every declaration missing a body, each once, in declaration order. */
  lemma {:induction false} MissingBodiesMeaning(ds: seq<Decl>, k: nat)
    requires k <= |ds|
    ensures forall i :: i in MissingBodies(ds, k) <==> k <= i < |ds| && MissingBody(ds[i])
    ensures forall a, b :: 0 <= a < b < |MissingBodies(ds, k)| ==> MissingBodies(ds, k)[a] < MissingBodies(ds, k)[b]
    decreases |ds| - k
  {
    if k < |ds| {
      MissingBodiesMeaning(ds, k + 1);
      var rest := MissingBodies(ds, k + 1);
      var head: seq<nat> := if MissingBody(ds[k]) then [k] else [];
      assert MissingBodies(ds, k) == head + rest;
      assert forall i :: i in head + rest <==> i in head || i in rest;
      forall a, b | 0 <= a < b < |head + rest|
        ensures (head + rest)[a] < (head + rest)[b]
      {
        if a < |head| {
          assert (head + rest)[b] == rest[b - |head|] && rest[b - |head|] in rest;
        }
      }
    }
  }

  // ---------------------------------------------------------------------
  // Dictionaries.

  /** An entry of a dictionary; types and nodes are abstract ids. */
  datatype DictEntry = ShapeParam(t: nat) | DerivedType(t: nat) | SubDictCall(n: nat) | ItabConv(n: nat)

  /**
   * dictInfo: the entries of a dictionary by section, and where the
   * sub-dictionary and itab-conversion sections start and the dictionary ends.
   */
  datatype DictInfo = DictInfo(shapeParams: seq<nat>, derivedTypes: seq<nat>, subDictCalls: seq<nat>,
                               itabConvs: seq<nat>, startSubDict: int, startItabConv: int, dictLen: int)

  /** The dictionary's entries: shape parameters, derived types, sub-dictionary calls, itab conversions. */
  function Entries(d: DictInfo): seq<DictEntry>
  {
    seq(|d.shapeParams|, i requires 0 <= i < |d.shapeParams| => ShapeParam(d.shapeParams[i]))
    + seq(|d.derivedTypes|, i requires 0 <= i < |d.derivedTypes| => DerivedType(d.derivedTypes[i]))
    + seq(|d.subDictCalls|, i requires 0 <= i < |d.subDictCalls| => SubDictCall(d.subDictCalls[i]))
    + seq(|d.itabConvs|, i requires 0 <= i < |d.itabConvs| => ItabConv(d.itabConvs[i]))
  }

  /** The dictInfo of the given sections, its offsets placed as the sections follow each other. */
  function NewDictInfo(shapes: seq<nat>, derived: seq<nat>, subs: seq<nat>, itabs: seq<nat>): (d: DictInfo)
    ensures d.shapeParams == shapes && d.derivedTypes == derived && d.subDictCalls == subs && d.itabConvs == itabs
    ensures 0 <= d.startSubDict <= d.startItabConv <= d.dictLen
    ensures d.startItabConv - d.startSubDict == |subs| && d.dictLen - d.startItabConv == |itabs|
  {
    var start := |shapes| + |derived|;
    DictInfo(shapes, derived, subs, itabs, start, start + |subs|, start + |subs| + |itabs|)
  }

  /**
   * The offsets of a dictInfo index its entries: the first startSubDict
   * entries are shape parameters and derived types, the sub-dictionary
   * calls follow from startSubDict, the itab conversions from
   * startItabConv, and dictLen counts them all.
   */
  lemma DictLayout(shapes: seq<nat>, derived: seq<nat>, subs: seq<nat>, itabs: seq<nat>)
    ensures var d := NewDictInfo(shapes, derived, subs, itabs);
      |Entries(d)| == d.dictLen
      && (forall i :: 0 <= i < d.startSubDict ==> Entries(d)[i].ShapeParam? || Entries(d)[i].DerivedType?)
      && (forall i :: 0 <= i < |subs| ==> Entries(d)[d.startSubDict + i] == SubDictCall(subs[i]))
      && (forall i :: 0 <= i < |itabs| ==> Entries(d)[d.startItabConv + i] == ItabConv(itabs[i]))
  {
    var d := NewDictInfo(shapes, derived, subs, itabs);
    var a := seq(|shapes|, i requires 0 <= i < |shapes| => ShapeParam(shapes[i]));
    var b := seq(|derived|, i requires 0 <= i < |derived| => DerivedType(derived[i]));
    var c := seq(|subs|, i requires 0 <= i < |subs| => SubDictCall(subs[i]));
    var e := seq(|itabs|, i requires 0 <= i < |itabs| => ItabConv(itabs[i]));
    assert Entries(d) == (a + b) + c + e;
    assert forall i :: 0 <= i < |subs| ==> Entries(d)[d.startSubDict + i] == c[i];
    assert forall i :: 0 <= i < |itabs| ==> Entries(d)[d.startItabConv + i] == e[i];
    assert forall i :: 0 <= i < d.startSubDict ==> Entries(d)[i] == (a + b)[i];
  }

  /**
   * The compaction of generate: the declarations that are kept move to
   * the front of a[..n], in order, and their number is returned.
   */
  method Compact(a: array<Decl>, n: nat) returns (j: nat)
    requires n <= a.Length
    modifies a
    ensures j <= n && a[..j] == Keep(old(a[..n]))
  {
    ghost var ds := a[..n];
    j := 0;
    var i := 0;
    while i < n
      invariant 0 <= j <= i <= n && |ds| == n
      invariant a[..j] == Keep(ds[..i])
      invariant forall k :: i <= k < n ==> a[k] == ds[k]
    {
      assert ds[..i + 1][..i] == ds[..i];
      if !a[i].isFunc || !a[i].generic {
        a[j] := a[i];
        j := j + 1;
      }
      i := i + 1;
    }
    assert ds[..n] == ds;
  }

  // ---------------------------------------------------------------------
  // The generator.

  /**
   * irgen: the later queue, the ids of the tasks run so far, and the
   * package's declaration list, a slice of decls of length ndecls.
   */
  class IRGen {
    var laterFuncs: seq<Task>
    var log: seq<nat>
    var decls: array<Decl>
    var ndecls: nat

    ghost predicate Valid()
      reads this
    {
      ndecls <= decls.Length
    }

    /** The declaration list. */
    function Decls(): seq<Decl>
      requires Valid()
      reads this, decls
    {
      decls[..ndecls]
    }

    constructor (ds: seq<Decl>)
      ensures Valid() && Decls() == ds && laterFuncs == [] && log == [] && fresh(decls)
    {
      laterFuncs := [];
      log := [];
      decls := new Decl[|ds|](i requires 0 <= i < |ds| => ds[i]);
      ndecls := |ds|;
      new;
      assert decls[..ndecls] == ds;
    }

    /** later: queue a task at the end. */
    method Later(t: Task)
      modifies this
      ensures laterFuncs == old(laterFuncs) + [t]
      ensures log == old(log) && decls == old(decls) && ndecls == old(ndecls)
    {
      laterFuncs := laterFuncs + [t];
    }

    /** Run a task: record it, and queue the tasks it spawns. */
    method Run(t: Task)
      modifies this
      ensures log == old(log) + [t.id] && laterFuncs == old(laterFuncs) + t.spawns
      ensures decls == old(decls) && ndecls == old(ndecls)
    {
      log := log + [t.id];
      var k := 0;
      while k < |t.spawns|
        invariant 0 <= k <= |t.spawns|
        invariant laterFuncs == old(laterFuncs) + t.spawns[..k]
        invariant log == old(log) + [t.id] && decls == old(decls) && ndecls == old(ndecls)
      {
        Later(t.spawns[k]);
        assert t.spawns[..k + 1] == t.spawns[..k] + [t.spawns[k]];
        k := k + 1;
      }
    }

    /** Run the later tasks, popping from the front, until the queue is empty. */
    method Drain()
      modifies this
      ensures laterFuncs == [] && log == old(log) + RunOrder(old(laterFuncs))
      ensures decls == old(decls) && ndecls == old(ndecls)
    {
      while |laterFuncs| > 0
        invariant log + RunOrder(laterFuncs) == old(log) + RunOrder(old(laterFuncs))
        invariant decls == old(decls) && ndecls == old(ndecls)
        decreases Total(laterFuncs)
      {
        var q := laterFuncs;
        var fn := laterFuncs[0];
        laterFuncs := laterFuncs[1..];
        Run(fn);
        TotalAppend(q[1..], fn.spawns);
        assert RunOrder(q) == [fn.id] + RunOrder(laterFuncs);
      }
    }

    /** The -complete check: the positions of function declarations with no body and no linkname. */
    method ReportMissingBodies() returns (errs: seq<nat>)
      requires Valid()
      ensures errs == MissingBodies(Decls(), 0)
    {
      var ds := decls[..ndecls];
      errs := [];
      var i := 0;
      while i < |ds|
        invariant 0 <= i <= |ds|
        invariant errs + MissingBodies(ds, i) == MissingBodies(ds, 0)
      {
        var d := ds[i];
        ghost var rest := MissingBodies(ds, i + 1);
        if d.isFunc && !d.hasBody && d.linkname == "" {
          assert MissingBodies(ds, i) == [i] + rest;
          errs := errs + [i];
        }
        i := i + 1;
      }
    }

    /** Remove the generic function declarations from the list. */
    method RemoveGenericFuncs()
      requires Valid()
      modifies this, decls
      ensures Valid() && decls == old(decls) && Decls() == Keep(old(Decls()))
      ensures laterFuncs == old(laterFuncs) && log == old(log)
    {
      ndecls := Compact(decls, ndecls);
    }

    /**
     * The tail of generate: drain the later queue, report missing bodies
     * under -complete, exit if that reported errors, and otherwise remove
     * the generic functions; the queue is empty either way.
     */
    method Generate(complete: bool) returns (errs: seq<nat>)
      requires Valid()
      modifies this, decls
      ensures Valid() && laterFuncs == []
      ensures log == old(log) + RunOrder(old(laterFuncs))
      ensures errs == (if complete then MissingBodies(old(Decls()), 0) else [])
      ensures errs == [] ==> Decls() == Keep(old(Decls()))
      ensures errs != [] ==> Decls() == old(Decls())
    {
      Drain();
      errs := [];
      if complete {
        errs := ReportMissingBodies();
      }
      if errs != [] {
        return;
      }
      RemoveGenericFuncs();
    }
  }
}
