/**
 * The list of embedded types found at one depth of a lookup, and its
 * consolidation: entries with identical types are merged into the first
 * of them, which is then marked as occurring more than once.
 */
module Embedding {
  import opened TypeObjects
  import opened TypeGraph

  /**
   * embeddedType: a type to search, the field indices that led to it, whether
   * a pointer was passed on the way, and whether it occurs several times at
   * its depth.
   */
  datatype EmbeddedType = EmbeddedType(typ: Handle, index: seq<nat>, indirect: bool, multiples: bool)

  // ---------------------------------------------------------------------
  // Identity is an equivalence.

  lemma IdentSymmetric(arena: Arena, a: Handle, b: Handle)
    requires Ident(arena, a, b)
    ensures Ident(arena, b, a)
  {
  }

  lemma IdentTransitive(arena: Arena, a: Handle, b: Handle, c: Handle)
    requires Ident(arena, a, b) && Ident(arena, b, c)
    ensures Ident(arena, a, c)
  {
  }

  // ---------------------------------------------------------------------
  // The specification of consolidation.

  /** No earlier entry has a type identical to that of entry j. */
  predicate FirstOcc(arena: Arena, list: seq<EmbeddedType>, j: nat)
    requires j < |list|
  {
    forall i :: 0 <= i < j ==> !Ident(arena, list[i].typ, list[j].typ)
  }

  /** Some entry after j and before the horizon has a type identical to that of entry j. */
  predicate RepeatedBefore(arena: Arena, list: seq<EmbeddedType>, j: nat, horizon: nat)
    requires j < |list| && horizon <= |list|
  {
    exists m :: j < m < horizon && Ident(arena, list[m].typ, list[j].typ)
  }

  /** Entry j, marked as a multiple if its type reappears before the horizon. */
  function Marked(arena: Arena, list: seq<EmbeddedType>, j: nat, horizon: nat): EmbeddedType
    requires j < |list| && horizon <= |list|
  {
    list[j].(multiples := list[j].multiples || RepeatedBefore(arena, list, j, horizon))
  }

  /** The positions, in order, of the first occurrences among the first k entries. */
  function FirstIdx(arena: Arena, list: seq<EmbeddedType>, k: nat): (idx: seq<nat>)
    requires k <= |list|
    ensures |idx| <= k && forall m :: 0 <= m < |idx| ==> idx[m] < k
  {
    if k == 0 then []
    else FirstIdx(arena, list, k - 1) + (if FirstOcc(arena, list, k - 1) then [k - 1] else [])
  }

  /** The first k entries consolidated, with repetitions counted up to entry k. */
  function Partial(arena: Arena, list: seq<EmbeddedType>, k: nat): (out: seq<EmbeddedType>)
    requires k <= |list|
    ensures |out| == |FirstIdx(arena, list, k)|
  {
    var idx := FirstIdx(arena, list, k);
    FirstIdxFacts(arena, list, k);
    seq(|idx|, i requires 0 <= i < |idx| => Marked(arena, list, idx[i], k))
  }

  /**
   * The consolidated list: the first entry of each class of identical types,
   * in order, marked as a multiple when its type occurs more than once or
   * when it was one already.
   */
  function Consolidated(arena: Arena, list: seq<EmbeddedType>): seq<EmbeddedType>
  {
    Partial(arena, list, |list|)
  }

  lemma {:induction false} FirstIdxFacts(arena: Arena, list: seq<EmbeddedType>, k: nat)
    requires k <= |list|
    ensures |FirstIdx(arena, list, k)| <= k
    ensures forall m :: 0 <= m < |FirstIdx(arena, list, k)| ==>
              FirstIdx(arena, list, k)[m] < k && FirstOcc(arena, list, FirstIdx(arena, list, k)[m])
    ensures forall m, m' :: 0 <= m < m' < |FirstIdx(arena, list, k)| ==>
              FirstIdx(arena, list, k)[m] < FirstIdx(arena, list, k)[m']
    ensures forall j :: 0 <= j < k && FirstOcc(arena, list, j) ==> j in FirstIdx(arena, list, k)
    decreases k
  {
    if k > 0 {
      FirstIdxFacts(arena, list, k - 1);
    }
  }

  /** Every one of the first k entries has an identical first occurrence among them. */
  lemma {:induction false} FirstIdxCovers(arena: Arena, list: seq<EmbeddedType>, k: nat, j: nat)
    requires j < k <= |list|
    ensures exists m :: 0 <= m < |FirstIdx(arena, list, k)| && Ident(arena, list[FirstIdx(arena, list, k)[m]].typ, list[j].typ)
    decreases j
  {
    FirstIdxFacts(arena, list, k);
    if FirstOcc(arena, list, j) {
      var idx := FirstIdx(arena, list, k);
      var m :| 0 <= m < |idx| && idx[m] == j;
      assert Ident(arena, list[idx[m]].typ, list[j].typ);
    } else {
      var i :| 0 <= i < j && Ident(arena, list[i].typ, list[j].typ);
      FirstIdxCovers(arena, list, k, i);
      var idx := FirstIdx(arena, list, k);
      var m :| 0 <= m < |idx| && Ident(arena, list[idx[m]].typ, list[i].typ);
      IdentTransitive(arena, list[idx[m]].typ, list[i].typ, list[j].typ);
    }
  }

  /** Two first occurrences never have identical types. */
  lemma FirstOccDistinct(arena: Arena, list: seq<EmbeddedType>, a: nat, b: nat)
    requires a < |list| && b < |list| && a != b
    requires FirstOcc(arena, list, a) && FirstOcc(arena, list, b)
    ensures !Ident(arena, list[a].typ, list[b].typ)
  {
    if a < b {
    } else if Ident(arena, list[a].typ, list[b].typ) {
      IdentSymmetric(arena, list[a].typ, list[b].typ);
    }
  }

  // ---------------------------------------------------------------------
  // What consolidation promises.

  /** The consolidated list holds no two identical types. */
  lemma ConsolidatedNoDup(arena: Arena, list: seq<EmbeddedType>)
    ensures forall i, j :: 0 <= i < j < |Consolidated(arena, list)| ==>
              !Ident(arena, Consolidated(arena, list)[i].typ, Consolidated(arena, list)[j].typ)
  {
    var idx := FirstIdx(arena, list, |list|);
    FirstIdxFacts(arena, list, |list|);
    forall i, j | 0 <= i < j < |Consolidated(arena, list)|
      ensures !Ident(arena, Consolidated(arena, list)[i].typ, Consolidated(arena, list)[j].typ)
    {
      FirstOccDistinct(arena, list, idx[i], idx[j]);
    }
  }

  /** Every entry of the list has an entry of identical type in the consolidated list. */
  lemma ConsolidatedCovers(arena: Arena, list: seq<EmbeddedType>, j: nat)
    requires j < |list|
    ensures exists i :: 0 <= i < |Consolidated(arena, list)| && Ident(arena, Consolidated(arena, list)[i].typ, list[j].typ)
  {
    FirstIdxCovers(arena, list, |list|, j);
    var idx := FirstIdx(arena, list, |list|);
    var m :| 0 <= m < |idx| && Ident(arena, list[idx[m]].typ, list[j].typ);
    assert Consolidated(arena, list)[m].typ == list[idx[m]].typ;
  }

  /**
   * Each consolidated entry is the first entry of its class, with the same
   * type, index path and indirection, marked as a multiple exactly when it
   * was one or another entry has an identical type; the entries keep the
   * order of the list.
   */
  lemma ConsolidatedEntries(arena: Arena, list: seq<EmbeddedType>)
    ensures |Consolidated(arena, list)| <= |list|
    ensures forall i :: 0 <= i < |Consolidated(arena, list)| ==>
              var j := FirstIdx(arena, list, |list|)[i];
              j < |list| && FirstOcc(arena, list, j)
              && Consolidated(arena, list)[i].typ == list[j].typ
              && Consolidated(arena, list)[i].index == list[j].index
              && Consolidated(arena, list)[i].indirect == list[j].indirect
              && (Consolidated(arena, list)[i].multiples <==>
                    list[j].multiples || exists m :: 0 <= m < |list| && m != j && Ident(arena, list[m].typ, list[j].typ))
    ensures forall i, i' :: 0 <= i < i' < |Consolidated(arena, list)| ==>
              FirstIdx(arena, list, |list|)[i] < FirstIdx(arena, list, |list|)[i']
  {
    FirstIdxFacts(arena, list, |list|);
  }

  /** A list of at most one entry is already consolidated. */
  lemma ConsolidatedShort(arena: Arena, list: seq<EmbeddedType>)
    requires |list| <= 1
    ensures Consolidated(arena, list) == list
  {
    if |list| == 1 {
      assert FirstIdx(arena, list, 1) == [0];
    }
  }

  // ---------------------------------------------------------------------
  // The code.

  /**
   * lookupType: the position recorded for a type identical to typ, trying
   * the type itself first and then every key, in no particular order.
   */
  method LookupType(arena: Arena, m: map<Handle, nat>, typ: Handle) returns (i: nat, found: bool)
    ensures found <==> exists t :: t in m && Ident(arena, t, typ)
    ensures found ==> exists t :: t in m && Ident(arena, t, typ) && m[t] == i
    ensures typ in m ==> found && i == m[typ]
    ensures !found ==> i == 0
  {
    if typ in m {
      return m[typ], true;
    }
    var keys := m.Keys;
    while keys != {}
      invariant keys <= m.Keys
      invariant forall t :: t in m && t !in keys ==> !Ident(arena, t, typ)
      decreases |keys|
    {
      var t :| t in keys;
      if Ident(arena, t, typ) {
        return m[t], true;
      }
      keys := keys - {t};
    }
    return 0, false;
  }

  /** The map from each kept type to its position in the kept prefix. */
  predicate PrevIndexes(arena: Arena, prev: map<Handle, nat>, out: seq<EmbeddedType>)
  {
    (forall t :: t in prev ==> prev[t] < |out| && out[prev[t]].typ == t)
    && (forall i :: 0 <= i < |out| ==> out[i].typ in prev)
  }

  /**
   * consolidateMultiples: compact the list in place so that its first n
   * entries are the consolidated list.
   */
  method ConsolidateMultiples(arena: Arena, a: array<EmbeddedType>) returns (n: nat)
    modifies a
    ensures n <= a.Length
    ensures a[..n] == Consolidated(arena, old(a[..]))
  {
    if a.Length <= 1 {
      n := a.Length;
      ConsolidatedShort(arena, a[..]);
      assert a[..n] == a[..];
      return;
    }
    ghost var list := a[..];
    n := 0;
    var prev: map<Handle, nat> := map[];
    var k := 0;
    while k < a.Length
      invariant 0 <= k <= a.Length && a.Length == |list|
      invariant n <= k && a[..n] == Partial(arena, list, k)
      invariant forall j :: k <= j < a.Length ==> a[j] == list[j]
      invariant PrevIndexes(arena, prev, a[..n])
    {
      n, prev := Absorb(arena, a, list, k, n, prev);
      k := k + 1;
    }
    assert a[..n] == Partial(arena, list, |list|);
  }

  /**
   * The body of the consolidation loop for entry k: an entry whose type is
   * already kept marks the kept entry, any other one is moved down to
   * position n and recorded in prev.
   */
  method Absorb(arena: Arena, a: array<EmbeddedType>, ghost list: seq<EmbeddedType>, k: nat, n: nat, prev: map<Handle, nat>)
    returns (n': nat, prev': map<Handle, nat>)
    requires k < a.Length == |list| && n <= k
    requires a[..n] == Partial(arena, list, k)
    requires forall j :: k <= j < a.Length ==> a[j] == list[j]
    requires PrevIndexes(arena, prev, a[..n])
    modifies a
    ensures n' <= k + 1 && a[..n'] == Partial(arena, list, k + 1)
    ensures forall j :: k + 1 <= j < a.Length ==> a[j] == list[j]
    ensures PrevIndexes(arena, prev', a[..n'])
  {
    ghost var kept := a[..n];
    var e := a[k];
    var i, found := LookupType(arena, prev, e.typ);
    ConsolidateStep(arena, list, k, kept, prev, i, found);
    if found {
      a[i] := a[i].(multiples := true);
      assert a[..n] == kept[i := kept[i].(multiples := true)];
      n', prev' := n, prev;
    } else {
      a[n] := e;
      assert a[..n + 1] == kept + [e];
      n', prev' := n + 1, prev[e.typ := n];
    }
  }

  /**
   * One turn of the consolidation loop: a type already kept at position i
   * marks that entry, and a new one is appended and recorded in the map.
   */
  lemma ConsolidateStep(arena: Arena, list: seq<EmbeddedType>, k: nat, kept: seq<EmbeddedType>,
                        prev: map<Handle, nat>, i: nat, found: bool)
    requires k < |list| && kept == Partial(arena, list, k) && PrevIndexes(arena, prev, kept)
    requires found <==> exists t :: t in prev && Ident(arena, t, list[k].typ)
    requires found ==> exists t :: t in prev && Ident(arena, t, list[k].typ) && prev[t] == i
    ensures found ==> i < |kept| && Partial(arena, list, k + 1) == kept[i := kept[i].(multiples := true)]
                      && PrevIndexes(arena, prev, kept[i := kept[i].(multiples := true)])
    ensures !found ==> Partial(arena, list, k + 1) == kept + [list[k]]
                       && PrevIndexes(arena, prev[list[k].typ := |kept|], kept + [list[k]])
  {
    PrevLookup(arena, prev, kept, list[k].typ, i, found);
    if found {
      ConsolidateStepFound(arena, list, k, i);
      PrevMark(arena, prev, kept, i);
    } else {
      ConsolidateStepNew(arena, list, k);
      PrevInsert(arena, prev, kept, list[k]);
    }
  }

  /** What lookupType finds in the map of kept types. */
  lemma PrevLookup(arena: Arena, prev: map<Handle, nat>, out: seq<EmbeddedType>, typ: Handle, i: nat, found: bool)
    requires PrevIndexes(arena, prev, out)
    requires found <==> exists t :: t in prev && Ident(arena, t, typ)
    requires found ==> exists t :: t in prev && Ident(arena, t, typ) && prev[t] == i
    ensures found ==> i < |out| && Ident(arena, out[i].typ, typ)
    ensures !found ==> forall j :: 0 <= j < |out| ==> !Ident(arena, out[j].typ, typ)
  {
    if !found {
      forall j | 0 <= j < |out| ensures !Ident(arena, out[j].typ, typ) {
        assert out[j].typ in prev;
      }
    }
  }

  lemma PrevMark(arena: Arena, prev: map<Handle, nat>, out: seq<EmbeddedType>, i: nat)
    requires PrevIndexes(arena, prev, out) && i < |out|
    ensures PrevIndexes(arena, prev, out[i := out[i].(multiples := true)])
  {
  }

  lemma PrevInsert(arena: Arena, prev: map<Handle, nat>, out: seq<EmbeddedType>, e: EmbeddedType)
    requires PrevIndexes(arena, prev, out)
    requires forall j :: 0 <= j < |out| ==> !Ident(arena, out[j].typ, e.typ)
    ensures PrevIndexes(arena, prev[e.typ := |out|], out + [e])
  {
  }

  /** An entry whose type the kept prefix already holds at position i marks that entry. */
  lemma ConsolidateStepFound(arena: Arena, list: seq<EmbeddedType>, k: nat, i: nat)
    requires k < |list| && i < |Partial(arena, list, k)|
    requires Ident(arena, Partial(arena, list, k)[i].typ, list[k].typ)
    ensures FirstIdx(arena, list, k + 1) == FirstIdx(arena, list, k)
    ensures Partial(arena, list, k + 1)
            == Partial(arena, list, k)[i := Partial(arena, list, k)[i].(multiples := true)]
  {
    var idx := FirstIdx(arena, list, k);
    FirstIdxFacts(arena, list, k);
    assert !FirstOcc(arena, list, k) by {
      assert idx[i] < k && Ident(arena, list[idx[i]].typ, list[k].typ);
    }
    var p, q := Partial(arena, list, k), Partial(arena, list, k + 1);
    forall m | 0 <= m < |idx|
      ensures q[m] == p[i := p[i].(multiples := true)][m]
    {
      if m == i {
        assert RepeatedBefore(arena, list, idx[m], k + 1) by {
          IdentSymmetric(arena, list[idx[i]].typ, list[k].typ);
        }
      } else {
        assert !Ident(arena, list[k].typ, list[idx[m]].typ) by {
          if Ident(arena, list[k].typ, list[idx[m]].typ) {
            IdentTransitive(arena, list[idx[i]].typ, list[k].typ, list[idx[m]].typ);
            FirstOccDistinct(arena, list, idx[i], idx[m]);
          }
        }
        assert RepeatedBefore(arena, list, idx[m], k + 1) == RepeatedBefore(arena, list, idx[m], k);
      }
    }
  }

  /** An entry with no identical type in the kept prefix is a first occurrence and is appended. */
  lemma ConsolidateStepNew(arena: Arena, list: seq<EmbeddedType>, k: nat)
    requires k < |list|
    requires forall i :: 0 <= i < |Partial(arena, list, k)| ==> !Ident(arena, Partial(arena, list, k)[i].typ, list[k].typ)
    ensures FirstIdx(arena, list, k + 1) == FirstIdx(arena, list, k) + [k]
    ensures Partial(arena, list, k + 1) == Partial(arena, list, k) + [list[k]]
  {
    var idx := FirstIdx(arena, list, k);
    FirstIdxFacts(arena, list, k);
    var p := Partial(arena, list, k);
    assert FirstOcc(arena, list, k) by {
      forall j | 0 <= j < k ensures !Ident(arena, list[j].typ, list[k].typ) {
        FirstIdxCovers(arena, list, k, j);
        var m :| 0 <= m < |idx| && Ident(arena, list[idx[m]].typ, list[j].typ);
        assert p[m].typ == list[idx[m]].typ;
        if Ident(arena, list[j].typ, list[k].typ) {
          IdentTransitive(arena, list[idx[m]].typ, list[j].typ, list[k].typ);
        }
      }
    }
    var q := Partial(arena, list, k + 1);
    forall m | 0 <= m < |idx|
      ensures q[m] == p[m]
    {
      assert p[m].typ == list[idx[m]].typ;
      assert !Ident(arena, list[k].typ, list[idx[m]].typ) by {
        if Ident(arena, list[k].typ, list[idx[m]].typ) {
          IdentSymmetric(arena, list[k].typ, list[idx[m]].typ);
        }
      }
      assert RepeatedBefore(arena, list, idx[m], k + 1) == RepeatedBefore(arena, list, idx[m], k);
    }
    assert q[|idx|] == Marked(arena, list, k, k + 1);
    assert !RepeatedBefore(arena, list, k, k + 1);
  }
}
