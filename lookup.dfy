/**
 * Field and method lookup through embedded fields (go/types lookup.go):
 * a breadth-first search over embedding depth in which the shallowest
 * match wins, two matches at one depth are ambiguous, and a method with a
 * pointer receiver needs an addressable operand or a pointer on the path.
 */
module Lookup {
  import opened TypeObjects
  import opened TypeGraph
  import opened Embedding

  /**
   * The four outcomes of a lookup: found (the object, its index path and
   * whether a pointer was passed), not found, an ambiguous selector (the
   * index path of the second match), and a method that needs an
   * addressable receiver.
   */
  datatype LookupResult =
    | Found(obj: Object, index: seq<nat>, indirect: bool)
    | NotFound
    | Ambiguous(index: seq<nat>)
    | NeedsAddress

  /** What the depth loop has gathered so far at the current depth. */
  datatype SearchState = SearchState(
    obj: Option<Object>,
    index: seq<nat>,
    indirect: bool,
    tpar: bool,
    next: seq<EmbeddedType>,
    seen: set<Handle>)

  // ---------------------------------------------------------------------
  // Small searches.

  /** concat: a fresh index path, the given one followed by i. */
  function Concat(list: seq<nat>, i: nat): (r: seq<nat>)
    ensures |r| == |list| + 1 && r[..|list|] == list && r[|list|] == i
  {
    list + [i]
  }

  /** fieldIndex: the first field with the given package and name, or -1; never the blank name. */
  method FieldIndex(fields: seq<Var>, pkg: Option<Package>, name: string) returns (r: int)
    ensures -1 <= r < |fields|
    ensures r >= 0 ==> name != "_" && VarSameId(fields[r], pkg, name)
                       && forall j :: 0 <= j < r ==> !VarSameId(fields[j], pkg, name)
    ensures r == -1 <==> name == "_" || forall j :: 0 <= j < |fields| ==> !VarSameId(fields[j], pkg, name)
  {
    if name != "_" {
      var i := 0;
      while i < |fields|
        invariant 0 <= i <= |fields|
        invariant forall j :: 0 <= j < i ==> !VarSameId(fields[j], pkg, name)
      {
        if VarSameId(fields[i], pkg, name) {
          return i;
        }
        i := i + 1;
      }
    }
    return -1;
  }

  /** lookupMethod: the index of and the first method with the given package and name, or (-1, nil). */
  method LookupMethod(methods: seq<Func>, pkg: Option<Package>, name: string) returns (i: int, m: Option<Func>)
    ensures i == MethodIndex(methods, pkg, name)
    ensures m.None? <==> i == -1
    ensures m.Some? ==> 0 <= i < |methods| && m.value == methods[i] && name != "_"
                        && FuncSameId(methods[i], pkg, name)
                        && forall j :: 0 <= j < i ==> !FuncSameId(methods[j], pkg, name)
    ensures m.None? <==> name == "_" || forall j :: 0 <= j < |methods| ==> !FuncSameId(methods[j], pkg, name)
  {
    if name != "_" {
      var k := 0;
      while k < |methods|
        invariant 0 <= k <= |methods|
        invariant forall j :: 0 <= j < k ==> !FuncSameId(methods[j], pkg, name)
        invariant MethodIndex(methods, pkg, name) == MethodIndexFrom(methods, pkg, name, k)
      {
        if FuncSameId(methods[k], pkg, name) {
          return k, Some(methods[k]);
        }
        k := k + 1;
      }
    }
    return -1, None;
  }

  /**
   * missingMethod's fast path: every type implements an interface without
   * methods, so nothing is missing and no method has the wrong type,
   * whatever the type and the static flag. Some((method, wrongType)) is the
   * fast path's answer; None means the full comparison of signatures is
   * needed.
   */
  function MissingMethodFastPath(tMethods: seq<Func>): (r: Option<(Option<Func>, Option<Func>)>)
    ensures r.Some? <==> |tMethods| == 0
    ensures r.Some? ==> r.value.0.None? && r.value.1.None?
  {
    if |tMethods| == 0 then Some((None, None)) else None
  }


  // ---------------------------------------------------------------------
  // What the search establishes.

  /** The object at the end of an index path from T, reached with the given indirection. */
  predicate FoundAt(arena: Arena, t: Handle, index: seq<nat>, obj: Object, indirect: bool, pkg: Option<Package>, name: string)
  {
    |index| >= 1
    && var r := Reach(arena, t, index[..|index| - 1]);
       r.Some? && r.value.1 == indirect && Selected(arena, r.value.0, index[|index| - 1], pkg, name) == Some(obj)
  }

  /** An index path to a method with a pointer receiver, with no pointer on the way. */
  predicate PtrMethodAt(arena: Arena, t: Handle, index: seq<nat>, pkg: Option<Package>, name: string)
  {
    |index| >= 1
    && var r := Reach(arena, t, index[..|index| - 1]);
       r.Some? && !r.value.1
       && var sel := Selected(arena, r.value.0, index[|index| - 1], pkg, name);
          sel.Some? && sel.value.MethodObj? && sel.value.f.ptrRecv
  }

  /** *T where T is a type parameter or an interface: such a pointer has no methods. */
  predicate PtrWithoutMethods(arena: Arena, t: Handle)
  {
    IsPtr(arena, t)
    && (NodeOf(arena, Deref(arena, t)).TypeParam? || NodeOf(arena, Under(arena, Deref(arena, t))).Interface?)
  }

  ghost function NamedSet(arena: Arena): set<Handle>
  {
    set h | 0 <= h < |arena| && arena[h].Named?
  }

  ghost predicate ShorterReach(arena: Arena, t: Handle, d: nat, h: Handle)
  {
    exists s: seq<nat> :: |s| < d && Reach(arena, t, s).Some? && Reach(arena, t, s).value.0 == h
  }

  /** A named type that an earlier depth already searched. */
  predicate Shadowed(arena: Arena, e: EmbeddedType, seen: set<Handle>)
  {
    NodeOf(arena, e.typ).Named? && e.typ in seen
  }

  /** The entry that embedded field i of e's type becomes at the next depth. */
  function Child(arena: Arena, e: EmbeddedType, i: nat): EmbeddedType
    requires Step(arena, e.typ, e.indirect, i).Some?
  {
    var s := Step(arena, e.typ, e.indirect, i).value;
    EmbeddedType(s.0, e.index + [i], s.1, e.multiples)
  }

  /** Every embedded field of e's type has been collected for the next depth, with its path, indirection and multiplicity. */
  ghost predicate Expanded(arena: Arena, e: EmbeddedType, next: seq<EmbeddedType>)
  {
    forall i: nat :: Step(arena, e.typ, e.indirect, i).Some? ==> Child(arena, e, i) in next
  }

  /** An entry of the current depth was shadowed by a shallower one, or had no match and was expanded. */
  ghost predicate Settled(arena: Arena, e: EmbeddedType, seen0: set<Handle>, next: seq<EmbeddedType>, pkg: Option<Package>, name: string)
  {
    e.typ in seen0 || (!Match(arena, e.typ, pkg, name) && Expanded(arena, e, next))
  }

  /** Entries collected for depth d + 1 are reached along their index paths. */
  predicate NextOK(arena: Arena, t: Handle, d: nat, next: seq<EmbeddedType>)
  {
    forall m :: 0 <= m < |next| ==>
      |next[m].index| == d + 1 && Reach(arena, t, next[m].index) == Some((next[m].typ, next[m].indirect))
      && !NodeOf(arena, next[m].typ).Struct?
  }

  /** Another path as long as e's leads to a type identical to e's. */
  ghost predicate OtherPathTo(arena: Arena, t: Handle, e: EmbeddedType)
  {
    exists q: seq<nat> ::
      |q| == |e.index| && q != e.index && Reach(arena, t, q).Some? && Ident(arena, Reach(arena, t, q).value.0, e.typ)
  }

  /**
   * e's path is the only one of its length that leads to a type identical
   * to e's, among the paths whose type no shorter path reaches.
   */
  ghost predicate OnlyPathTo(arena: Arena, t: Handle, e: EmbeddedType)
  {
    forall q: seq<nat> ::
      (|q| == |e.index| && Reach(arena, t, q).Some? && Ident(arena, Reach(arena, t, q).value.0, e.typ)
       && !ShorterReach(arena, t, |q|, Reach(arena, t, q).value.0)) ==> q == e.index
  }

  /** Collected entries have distinct paths, and an entry marked as a multiple has another path to its type. */
  ghost predicate NextPaths(arena: Arena, t: Handle, next: seq<EmbeddedType>)
  {
    (forall m1, m2 :: 0 <= m1 < m2 < |next| ==> next[m1].index != next[m2].index)
    && (forall m :: 0 <= m < |next| && next[m].multiples ==> OtherPathTo(arena, t, next[m]))
  }

  /** No collected entry was reached through the path p of length d. */
  predicate NextAvoids(next: seq<EmbeddedType>, d: nat, p: seq<nat>)
  {
    forall m :: 0 <= m < |next| && d <= |next[m].index| ==> next[m].index[..d] != p
  }

  /** The state within depth d is consistent: what it found is really there. */
  predicate StateOK(arena: Arena, t: Handle, d: nat, st: SearchState, pkg: Option<Package>, name: string)
  {
    NextOK(arena, t, d, st.next)
    && (st.tpar ==> st.obj.Some?)
    && (st.obj.Some? ==>
          |st.index| == d + 1 && FoundAt(arena, t, st.index, st.obj.value, st.indirect, pkg, name)
          && (st.tpar ==> st.obj.value.MethodObj? && !st.obj.value.f.ptrRecv))
  }

  /**
   * Every type reachable along d embedded fields is identical to an entry
   * of the current list, or reachable along fewer fields.
   */
  ghost predicate Covered(arena: Arena, t: Handle, d: nat, current: seq<EmbeddedType>)
  {
    forall p: seq<nat> :: |p| == d && Reach(arena, t, p).Some? ==>
      (exists k :: 0 <= k < |current| && Ident(arena, current[k].typ, Reach(arena, t, p).value.0))
      || ShorterReach(arena, t, d, Reach(arena, t, p).value.0)
  }

  /** The entries of depth d are reached along their paths, and no two of them are identical. */
  predicate EntriesOK(arena: Arena, t: Handle, d: nat, current: seq<EmbeddedType>)
  {
    (forall k :: 0 <= k < |current| ==>
       |current[k].index| == d && Reach(arena, t, current[k].index) == Some((current[k].typ, current[k].indirect))
       && (d >= 1 ==> !NodeOf(arena, current[k].typ).Struct?))
    && (forall i, j :: 0 <= i < j < |current| ==> !Ident(arena, current[i].typ, current[j].typ))
  }

  /** Every entry marked as a multiple is reached along another path too. */
  ghost predicate MultiplesRepeat(arena: Arena, t: Handle, current: seq<EmbeddedType>)
  {
    forall k :: 0 <= k < |current| && current[k].multiples ==> OtherPathTo(arena, t, current[k])
  }

  /** Every entry not marked as a multiple is reached along its own path only. */
  ghost predicate SinglesUnique(arena: Arena, t: Handle, current: seq<EmbeddedType>)
  {
    forall k :: 0 <= k < |current| && !current[k].multiples ==> OnlyPathTo(arena, t, current[k])
  }

  /** The invariant of the depth loop at the start of depth d. */
  ghost predicate DepthInv(arena: Arena, t: Handle, d: nat, current: seq<EmbeddedType>, seen: set<Handle>,
                           pkg: Option<Package>, name: string)
  {
    EntriesOK(arena, t, d, current)
    && seen <= NamedSet(arena)
    && (forall n :: n in seen ==> ShorterReach(arena, t, d, n))
    && Covered(arena, t, d, current)
    && NoMatchAbove(arena, t, d, pkg, name)
    && MultiplesRepeat(arena, t, current)
    && SinglesUnique(arena, t, current)
  }

  /** A collision on p at depth d: p selects an entry, and so does another path as long as p. */
  ghost predicate Collision(arena: Arena, t: Handle, d: nat, p: seq<nat>, pkg: Option<Package>, name: string)
  {
    |p| == d + 1 && SelectedAlong(arena, t, p, pkg, name).Some? && OtherSelection(arena, t, p, pkg, name)
  }

  /**
   * What visiting e needs of the state: e is reached along its path, the
   * state's match and its collected entries came through other paths, and
   * e, if marked as a multiple, is reached along another path too.
   */
  ghost predicate VisitPre(arena: Arena, t: Handle, pkg: Option<Package>, name: string, depth: nat,
                           e: EmbeddedType, st: SearchState)
  {
    |e.index| == depth && Reach(arena, t, e.index) == Some((e.typ, e.indirect))
    && StateOK(arena, t, depth, st, pkg, name) && NextPaths(arena, t, st.next)
    && NextAvoids(st.next, depth, e.index)
    && (st.obj.Some? ==> st.index[..depth] != e.index)
    && (e.multiples ==> OtherPathTo(arena, t, e))
  }

  /**
   * What visiting an entry e that was not shadowed made of st, without a
   * collision: entries collected for e extend e's path; a match made
   * earlier is kept, and then e has none; a first match is on e, which is
   * not a multiple and offers nothing else; no match means e is expanded.
   */
  ghost predicate VisitedOK(arena: Arena, t: Handle, pkg: Option<Package>, name: string, depth: nat,
                            e: EmbeddedType, st: SearchState, st': SearchState)
  {
    StateOK(arena, t, depth, st', pkg, name) && NextPaths(arena, t, st'.next)
    && |st.next| <= |st'.next| && st'.next[..|st.next|] == st.next
    && (forall m :: |st.next| <= m < |st'.next| ==> st'.next[m].index[..depth] == e.index)
    && (st.obj.Some? ==>
          st'.obj == st.obj && st'.index == st.index && st'.indirect == st.indirect && !Match(arena, e.typ, pkg, name))
    && (st.obj.None? && st'.obj.Some? ==>
          st'.index[..depth] == e.index && !e.multiples && OnlyAt(arena, e.typ, st'.index[depth], pkg, name))
    && (st'.obj.None? ==> !Match(arena, e.typ, pkg, name) && Expanded(arena, e, st'.next))
  }

  /**
   * The match of the state, on a path through the entries of depth d,
   * is the only one among the first k entries: every other entry that was
   * not shadowed has no match, and the entry it is on is not a multiple and
   * offers nothing else.
   */
  ghost predicate SoleMatch(arena: Arena, pkg: Option<Package>, name: string, d: nat, current: seq<EmbeddedType>,
                            seen0: set<Handle>, k: nat, st: SearchState)
    requires k <= |current| && |st.index| == d + 1
  {
    (forall k' :: k <= k' < |current| ==> st.index[..d] != current[k'].index)
    && (forall k' :: 0 <= k' < k && current[k'].typ !in seen0 && current[k'].index != st.index[..d] ==>
          !Match(arena, current[k'].typ, pkg, name))
    && (forall k' :: 0 <= k' < k && current[k'].index == st.index[..d] ==>
          !current[k'].multiples && OnlyAt(arena, current[k'].typ, st.index[d], pkg, name))
  }

  /** The entry loop of depth d, from seen0, has visited the first k entries without a collision and left st. */
  ghost predicate Scanned(arena: Arena, t: Handle, pkg: Option<Package>, name: string, d: nat,
                          current: seq<EmbeddedType>, seen0: set<Handle>, k: nat, st: SearchState)
    requires k <= |current|
  {
    StateOK(arena, t, d, st, pkg, name) && NextPaths(arena, t, st.next)
    && seen0 <= st.seen <= NamedSet(arena)
    && (forall n :: n in st.seen ==> n in seen0 || exists k' :: 0 <= k' < k && current[k'].typ == n)
    && (|st.next| > 0 ==> d == 0 || st.seen != seen0)
    && (forall k' :: k <= k' < |current| ==> NextAvoids(st.next, d, current[k'].index))
    && (st.obj.None? ==> forall k' :: 0 <= k' < k ==> Settled(arena, current[k'], seen0, st.next, pkg, name))
    && (st.obj.Some? ==> SoleMatch(arena, pkg, name, d, current, seen0, k, st))
  }

  /**
   * What any result of the search promises. A found entry is at the end of
   * its index path, no shallower type matches, and no other path of that
   * length selects anything. A method with a pointer receiver is found only
   * through a pointer or on an addressable operand; otherwise the result
   * asks for an address. An ambiguous path selects an entry, with nothing
   * shallower matching and another path of its length selecting one too.
   * Not found means nothing reachable matches.
   */
  ghost predicate Sound(arena: Arena, t: Handle, addressable: bool, pkg: Option<Package>, name: string, r: LookupResult)
  {
    (r.Found? ==> FoundAt(arena, t, r.index, r.obj, r.indirect, pkg, name)
                  && NoMatchAbove(arena, t, |r.index| - 1, pkg, name)
                  && OnlySelection(arena, t, r.index, pkg, name))
    && (r.Found? && r.obj.MethodObj? && r.obj.f.ptrRecv ==> r.indirect || addressable)
    && (r.Ambiguous? ==> SelectedAlong(arena, t, r.index, pkg, name).Some?
                         && NoMatchAbove(arena, t, |r.index| - 1, pkg, name)
                         && OtherSelection(arena, t, r.index, pkg, name))
    && (r.NeedsAddress? ==>
          !addressable
          && (exists p: seq<nat> :: PtrMethodAt(arena, t, p, pkg, name) && NoMatchAbove(arena, t, |p| - 1, pkg, name)
                                    && OnlySelection(arena, t, p, pkg, name)))
    && (r.NotFound? ==> NoMatchAnywhere(arena, t, pkg, name))
    && (IsPtr(arena, t) ==> !r.NeedsAddress?)
  }

  /**
   * Sound pins the result down: two sound results are the same, except that
   * an ambiguous one may name either of the colliding paths (both of the
   * same length).
   */
  lemma SoundDetermined(arena: Arena, t: Handle, addressable: bool, pkg: Option<Package>, name: string,
                        r1: LookupResult, r2: LookupResult)
    requires Sound(arena, t, addressable, pkg, name, r1) && Sound(arena, t, addressable, pkg, name, r2)
    ensures r1 == r2 || (r1.Ambiguous? && r2.Ambiguous? && |r1.index| == |r2.index|)
  {
    var p1 := SoundPath(arena, t, addressable, pkg, name, r1);
    var p2 := SoundPath(arena, t, addressable, pkg, name, r2);
    if r1.NotFound? || r2.NotFound? {
      if !(r1.NotFound? && r2.NotFound?) {
        var p := if r1.NotFound? then p2 else p1;
        MatchOnSelection(arena, t, p, pkg, name);
        assert false;
      }
    } else {
      SameDepth(arena, t, p1, p2, pkg, name);
      if r1.Ambiguous? || r2.Ambiguous? {
        if !(r1.Ambiguous? && r2.Ambiguous?) {
          assert false;
        }
      } else {
        assert p1 == p2;
        if r1.Found? && r2.Found? {
        } else if r1.Found? || r2.Found? {
          assert false;
        }
      }
    }
  }

  /** The path a sound result stands on (the pointer-method path of a result that asks for an address). */
  lemma SoundPath(arena: Arena, t: Handle, addressable: bool, pkg: Option<Package>, name: string, r: LookupResult)
    returns (p: seq<nat>)
    requires Sound(arena, t, addressable, pkg, name, r)
    ensures !r.NotFound? ==> |p| >= 1 && SelectedAlong(arena, t, p, pkg, name).Some?
                             && NoMatchAbove(arena, t, |p| - 1, pkg, name)
    ensures r.Found? || r.Ambiguous? ==> p == r.index
    ensures r.Found? || r.NeedsAddress? ==> OnlySelection(arena, t, p, pkg, name)
    ensures r.NeedsAddress? ==> PtrMethodAt(arena, t, p, pkg, name) && !addressable
    ensures r.Found? ==> FoundAt(arena, t, p, r.obj, r.indirect, pkg, name)
  {
    if r.NeedsAddress? {
      p :| PtrMethodAt(arena, t, p, pkg, name) && NoMatchAbove(arena, t, |p| - 1, pkg, name)
           && OnlySelection(arena, t, p, pkg, name);
    } else if r.Found? || r.Ambiguous? {
      p := r.index;
    } else {
      p := [];
    }
  }

  /** A path that selects an entry ends on a type that matches. */
  lemma MatchOnSelection(arena: Arena, t: Handle, p: seq<nat>, pkg: Option<Package>, name: string)
    requires SelectedAlong(arena, t, p, pkg, name).Some?
    ensures Reach(arena, t, p[..|p| - 1]).Some? && Match(arena, Reach(arena, t, p[..|p| - 1]).value.0, pkg, name)
    ensures !NoMatchAnywhere(arena, t, pkg, name)
  {
    var h := Reach(arena, t, p[..|p| - 1]).value.0;
    assert Selected(arena, h, p[|p| - 1], pkg, name).Some?;
  }

  /** Two selecting paths, each with nothing matching above it, are equally long. */
  lemma SameDepth(arena: Arena, t: Handle, p1: seq<nat>, p2: seq<nat>, pkg: Option<Package>, name: string)
    requires |p1| >= 1 && |p2| >= 1
    requires SelectedAlong(arena, t, p1, pkg, name).Some? && NoMatchAbove(arena, t, |p1| - 1, pkg, name)
    requires SelectedAlong(arena, t, p2, pkg, name).Some? && NoMatchAbove(arena, t, |p2| - 1, pkg, name)
    ensures |p1| == |p2|
  {
    MatchOnSelection(arena, t, p1, pkg, name);
    MatchOnSelection(arena, t, p2, pkg, name);
  }

  /** Bounds the depth loop: each round past depth 0 that goes on sees a named type for the first time. */
  ghost function Measure(named: set<Handle>, d: nat, current: seq<EmbeddedType>, seen: set<Handle>): nat
  {
    2 * |named - seen| + (if d == 0 then 1 else 0) + (if |current| > 0 then 1 else 0)
  }

  // ---------------------------------------------------------------------
  // The search.

  /**
   * LookupFieldOrMethod: on a named pointer type, look in the pointer type
   * and discard a method, since methods cannot be declared on a named
   * pointer type; otherwise look in T.
   */
  method LookupFieldOrMethod(arena: Arena, t: Handle, addressable: bool, pkg: Option<Package>, name: string)
    returns (r: LookupResult)
    requires WF(arena) && t < |arena|
    ensures name == "_" ==> r == NotFound
    ensures !NamedPointer(arena, t) && name != "_" && PtrWithoutMethods(arena, t) ==> r == NotFound
    ensures !NamedPointer(arena, t) && name != "_" && !PtrWithoutMethods(arena, t) ==>
              Sound(arena, t, addressable, pkg, name, r)
    ensures NamedPointer(arena, t) && name != "_" && PtrWithoutMethods(arena, NodeOf(arena, t).underlying) ==>
              r == NotFound
    ensures NamedPointer(arena, t) && name != "_" && !PtrWithoutMethods(arena, NodeOf(arena, t).underlying) ==>
              exists r0 :: Sound(arena, NodeOf(arena, t).underlying, false, pkg, name, r0) && r == WithoutMethod(r0)
    ensures NamedPointer(arena, t) ==> !r.NeedsAddress? && (r.Found? ==> r.obj.FieldObj?)
  {
    if NamedPointer(arena, t) {
      var r0 := LookupFieldOrMethodIn(arena, NodeOf(arena, t).underlying, false, pkg, name);
      return WithoutMethod(r0);
    }
    r := LookupFieldOrMethodIn(arena, t, addressable, pkg, name);
  }

  /** A named type whose underlying type is a pointer. */
  predicate NamedPointer(arena: Arena, t: Handle)
  {
    NodeOf(arena, t).Named? && NodeOf(arena, NodeOf(arena, t).underlying).Pointer?
  }

  /** A method found through a named pointer type is no result: (nil, nil, false). */
  function WithoutMethod(r: LookupResult): LookupResult
  {
    if r.Found? && r.obj.MethodObj? then NotFound else r
  }

  /**
   * lookupFieldOrMethod: the blank name and a pointer to a type parameter
   * or an interface have nothing; otherwise the breadth-first search gives
   * a sound result.
   */
  method LookupFieldOrMethodIn(arena: Arena, t: Handle, addressable: bool, pkg: Option<Package>, name: string)
    returns (r: LookupResult)
    requires WF(arena) && t < |arena|
    ensures name == "_" ==> r == NotFound
    ensures name != "_" && PtrWithoutMethods(arena, t) ==> r == NotFound
    ensures name != "_" && !PtrWithoutMethods(arena, t) ==> Sound(arena, t, addressable, pkg, name, r)
    ensures IsPtr(arena, t) ==> !r.NeedsAddress?
  {
    if name == "_" {
      return NotFound;
    }
    var typ, isPtr := Deref(arena, t), IsPtr(arena, t);
    if isPtr {
      if NodeOf(arena, typ).TypeParam? {
        return NotFound;
      }
      if NodeOf(arena, Under(arena, typ)).Interface? {
        return NotFound;
      }
    }
    r := SearchDepths(arena, t, addressable, pkg, name);
  }

  /** The depth loop of lookupFieldOrMethod, from T's base type as the only entry at depth 0. */
  method SearchDepths(arena: Arena, t: Handle, addressable: bool, pkg: Option<Package>, name: string)
    returns (r: LookupResult)
    requires WF(arena) && name != "_"
    ensures Sound(arena, t, addressable, pkg, name, r)
  {
    var current := [EmbeddedType(Deref(arena, t), [], IsPtr(arena, t), false)];
    var seen: set<Handle> := {};
    var depth: nat := 0;
    ghost var named := NamedSet(arena);
    StartInv(arena, t, pkg, name, current);
    while |current| > 0
      invariant DepthInv(arena, t, depth, current, seen, pkg, name)
      decreases Measure(named, depth, current, seen)
    {
      var done;
      done, r, depth, current, seen := SearchDepth(arena, t, addressable, pkg, name, depth, current, seen);
      if done {
        return;
      }
    }
    NothingLeft(arena, t, depth, seen, pkg, name);
    return NotFound;
  }

  lemma StartInv(arena: Arena, t: Handle, pkg: Option<Package>, name: string, current: seq<EmbeddedType>)
    requires current == [EmbeddedType(Deref(arena, t), [], IsPtr(arena, t), false)]
    ensures DepthInv(arena, t, 0, current, {}, pkg, name)
  {
    forall p: seq<nat> | |p| == 0 && Reach(arena, t, p).Some?
      ensures Ident(arena, current[0].typ, Reach(arena, t, p).value.0)
    {
      assert p == [];
    }
  }

  /**
   * One round of the depth loop: scan the entries; a collision is
   * ambiguous, a match is the result (unless its pointer receiver needs an
   * address), and otherwise the collected entries, consolidated, are the
   * next depth.
   */
  method SearchDepth(arena: Arena, t: Handle, addressable: bool, pkg: Option<Package>, name: string, depth: nat,
                     current: seq<EmbeddedType>, seen: set<Handle>)
    returns (done: bool, r: LookupResult, depth': nat, current': seq<EmbeddedType>, seen': set<Handle>)
    requires WF(arena) && name != "_"
    requires DepthInv(arena, t, depth, current, seen, pkg, name) && |current| > 0
    ensures done ==> Sound(arena, t, addressable, pkg, name, r)
    ensures !done ==> depth' == depth + 1 && DepthInv(arena, t, depth', current', seen', pkg, name)
                      && Measure(NamedSet(arena), depth', current', seen') < Measure(NamedSet(arena), depth, current, seen)
  {
    r, depth', current', seen' := NotFound, depth, current, seen;
    var st, collided := ScanDepth(arena, t, pkg, name, depth, current, seen);
    if collided {
      return true, Ambiguous(st.index), depth, current, seen;
    }

    if st.obj.Some? {
      SoleSelection(arena, t, pkg, name, depth, current, seen, st);
      r := Conclude(arena, t, addressable, pkg, name, depth, st);
      return true, r, depth, current, seen;
    }

    depth', current', seen' := NextDepth(arena, t, pkg, name, depth, current, seen, st);
    done := false;
  }

  /** No match at this depth: the consolidated entries collected are the next depth's. */
  method NextDepth(arena: Arena, t: Handle, pkg: Option<Package>, name: string, depth: nat,
                   current: seq<EmbeddedType>, seen: set<Handle>, st: SearchState)
    returns (depth': nat, current': seq<EmbeddedType>, seen': set<Handle>)
    requires WF(arena)
    requires DepthInv(arena, t, depth, current, seen, pkg, name) && |current| > 0
    requires Scanned(arena, t, pkg, name, depth, current, seen, |current|, st) && st.obj.None?
    ensures depth' == depth + 1 && DepthInv(arena, t, depth', current', seen', pkg, name)
    ensures Measure(NamedSet(arena), depth', current', seen') < Measure(NamedSet(arena), depth, current, seen)
  {
    current' := Consolidate(arena, st.next);
    depth', seen' := depth + 1, st.seen;
    MeasureDrops(arena, depth, depth', current, seen, seen', st.next, current');
    AdvanceDepth(arena, t, pkg, name, depth, current, seen, st);
  }

  /**
   * The end of a depth with a match: a method with a pointer receiver,
   * reached without a pointer on an operand that is not addressable (and
   * not through a type parameter), needs an address; otherwise it is found.
   */
  method Conclude(arena: Arena, t: Handle, addressable: bool, pkg: Option<Package>, name: string, depth: nat,
                  st: SearchState)
    returns (r: LookupResult)
    requires StateOK(arena, t, depth, st, pkg, name) && st.obj.Some?
    requires NoMatchAbove(arena, t, depth, pkg, name) && OnlySelection(arena, t, st.index, pkg, name)
    ensures Sound(arena, t, addressable, pkg, name, r)
    ensures r.Found? || r.NeedsAddress?
  {
    var obj := st.obj.value;
    if obj.MethodObj? {
      var hasPtrRecv := !st.tpar && obj.f.ptrRecv;
      if hasPtrRecv && !st.indirect && !addressable {
        assert PtrMethodAt(arena, t, st.index, pkg, name);
        ReachFromPointer(arena, t, st.index[..|st.index| - 1]);
        return NeedsAddress;
      }
    }
    return Found(obj, st.index, st.indirect);
  }

  /** The entries of one depth, visited in order until a collision. */
  method ScanDepth(arena: Arena, t: Handle, pkg: Option<Package>, name: string, depth: nat,
                   current: seq<EmbeddedType>, seen: set<Handle>)
    returns (st: SearchState, collided: bool)
    requires WF(arena) && name != "_"
    requires EntriesOK(arena, t, depth, current) && seen <= NamedSet(arena)
    requires MultiplesRepeat(arena, t, current)
    ensures collided ==> Collision(arena, t, depth, st.index, pkg, name)
    ensures !collided ==> Scanned(arena, t, pkg, name, depth, current, seen, |current|, st)
  {
    st, collided := SearchState(None, [], false, false, [], seen), false;
    var k := 0;
    while k < |current|
      invariant 0 <= k <= |current|
      invariant Scanned(arena, t, pkg, name, depth, current, seen, k, st)
    {
      ghost var before := st;
      EntryReady(arena, t, pkg, name, depth, current, seen, k, st);
      st, collided := VisitEntry(arena, t, pkg, name, depth, current[k], st);
      if collided {
        return;
      }
      EntryDone(arena, t, pkg, name, depth, current, seen, k, before, st);
      k := k + 1;
    }
  }

  /** consolidateMultiples on a fresh copy of the collected entries. */
  method Consolidate(arena: Arena, next: seq<EmbeddedType>) returns (current: seq<EmbeddedType>)
    ensures current == Consolidated(arena, next)
  {
    var buf := new EmbeddedType[|next|](i requires 0 <= i < |next| => next[i]);
    assert buf[..] == next;
    var n := ConsolidateMultiples(arena, buf);
    current := buf[..n];
  }

  /** A depth with no entries left: nothing below T has the entry. */
  lemma NothingLeft(arena: Arena, t: Handle, d: nat, seen: set<Handle>, pkg: Option<Package>, name: string)
    requires DepthInv(arena, t, d, [], seen, pkg, name)
    ensures NoMatchAnywhere(arena, t, pkg, name)
  {
    NoMatchAnywhereFrom(arena, t, d, pkg, name);
  }

  /**
   * The work for one entry of the current depth: a named type already seen
   * is skipped; otherwise its declared methods are tried first, and then
   * the fields, interface methods or constraint methods of its underlying
   * type (or of the type itself when it is not named).
   */
  method VisitEntry(arena: Arena, t: Handle, pkg: Option<Package>, name: string, depth: nat,
                    e: EmbeddedType, st: SearchState)
    returns (st': SearchState, collided: bool)
    requires WF(arena) && name != "_"
    requires depth >= 1 ==> !NodeOf(arena, e.typ).Struct?
    requires VisitPre(arena, t, pkg, name, depth, e, st)
    ensures collided ==> Collision(arena, t, depth, st'.index, pkg, name)
    ensures Shadowed(arena, e, st.seen) ==> !collided && st' == st
    ensures !collided && !Shadowed(arena, e, st.seen) ==> VisitedOK(arena, t, pkg, name, depth, e, st, st')
    ensures !collided ==> st'.seen == (if NodeOf(arena, e.typ).Named? then st.seen + {e.typ} else st.seen)
    ensures !collided && |st'.next| > |st.next| ==> depth == 0 || (NodeOf(arena, e.typ).Named? && e.typ !in st.seen)
  {
    st', collided := st, false;
    if NodeOf(arena, e.typ).Named? {
      if e.typ in st.seen {
        return;
      }
      st', collided := VisitNamed(arena, t, pkg, name, depth, e, st);
    } else {
      st', collided := VisitUnderlying(arena, t, pkg, name, depth, e, st);
      if !collided && |st'.next| > |st.next| {
        assert NodeOf(arena, e.typ).Struct?;
      }
    }
  }

  /**
   * A named type seen for the first time: it is recorded, its declared
   * methods are tried, and then its underlying type, unless that is a type
   * parameter.
   */
  method VisitNamed(arena: Arena, t: Handle, pkg: Option<Package>, name: string, depth: nat,
                    e: EmbeddedType, st: SearchState)
    returns (st': SearchState, collided: bool)
    requires WF(arena) && name != "_" && NodeOf(arena, e.typ).Named?
    requires VisitPre(arena, t, pkg, name, depth, e, st)
    ensures collided ==> Collision(arena, t, depth, st'.index, pkg, name)
    ensures !collided ==> VisitedOK(arena, t, pkg, name, depth, e, st, st') && st'.seen == st.seen + {e.typ}
  {
    var n := NodeOf(arena, e.typ);
    var st1 := st.(seen := st.seen + {e.typ});
    var found;
    st', collided, found := MatchMethods(arena, t, pkg, name, depth, e, n.methods, false, st1);
    if collided || found {
      return;
    }
    if NodeOf(arena, n.underlying).TypeParam? {
      NoEntryBelowTypeParam(arena, e, pkg, name);
      return;
    }
    st', collided := VisitUnderlying(arena, t, pkg, name, depth, e, st1);
  }

  /**
   * The switch on the underlying type of an entry (the entry itself when it
   * is not named): struct fields, interface methods, or the methods of a
   * type parameter's constraint, which are never pointer methods.
   */
  method VisitUnderlying(arena: Arena, t: Handle, pkg: Option<Package>, name: string, depth: nat,
                         e: EmbeddedType, st: SearchState)
    returns (st': SearchState, collided: bool)
    requires WF(arena) && name != "_"
    requires depth >= 1 ==> !NodeOf(arena, e.typ).Struct?
    requires NoDeclaredMatch(arena, e.typ, pkg, name)
    requires !(NodeOf(arena, e.typ).Named? && NodeOf(arena, NodeOf(arena, e.typ).underlying).TypeParam?)
    requires VisitPre(arena, t, pkg, name, depth, e, st)
    ensures collided ==> Collision(arena, t, depth, st'.index, pkg, name)
    ensures !collided ==> VisitedOK(arena, t, pkg, name, depth, e, st, st') && st'.seen == st.seen
    ensures !collided && |st'.next| > |st.next| ==> NodeOf(arena, Under(arena, e.typ)).Struct?
  {
    var st0 := st.(tpar := false);
    st', collided := st0, false;
    var u := Under(arena, e.typ);
    match NodeOf(arena, u)
    case Struct(fields) =>
      st', collided := ScanFields(arena, t, pkg, name, depth, e, fields, st0);
    case Interface(ms) =>
      st', collided := VisitMethodSet(arena, t, pkg, name, depth, e, ms, false, st0);
    case TypeParam(ms) =>
      assert u < |arena| && WFAt(arena, u);
      st', collided := VisitMethodSet(arena, t, pkg, name, depth, e, ms, true, st0);
    case _ =>
      NoEntryInOtherKinds(arena, e, pkg, name);
      NothingVisited(arena, t, pkg, name, depth, e, st0);
    if !collided {
      VisitedWithoutTpar(arena, t, pkg, name, depth, e, st, st0, st');
    }
  }

  /** The methods of an interface, or of a type parameter's constraint (bound), of an entry. */
  method VisitMethodSet(arena: Arena, t: Handle, pkg: Option<Package>, name: string, depth: nat,
                        e: EmbeddedType, ms: seq<Func>, bound: bool, st: SearchState)
    returns (st': SearchState, collided: bool)
    requires name != "_"
    requires NodeOf(arena, Under(arena, e.typ)) == (if bound then TypeParam(ms) else Interface(ms))
    requires !(NodeOf(arena, e.typ).Named? && NodeOf(arena, NodeOf(arena, e.typ).underlying).TypeParam?)
    requires NoDeclaredMatch(arena, e.typ, pkg, name)
    requires bound ==> forall i :: 0 <= i < |ms| ==> !ms[i].ptrRecv
    requires VisitPre(arena, t, pkg, name, depth, e, st)
    ensures collided <==> MethodIndex(ms, pkg, name) >= 0 && (st.obj.Some? || e.multiples)
    ensures collided ==> Collision(arena, t, depth, st'.index, pkg, name)
    ensures !collided ==> VisitedOK(arena, t, pkg, name, depth, e, st, st') && st'.seen == st.seen && st'.next == st.next
  {
    var found;
    st', collided, found := MatchMethods(arena, t, pkg, name, depth, e, ms, bound, st);
    if !found {
      NoEntryInInterface(arena, e, ms, pkg, name);
      NothingVisited(arena, t, pkg, name, depth, e, st);
    }
  }

  /** An entry with nothing to offer and no fields to collect leaves the state as it was. */
  lemma NothingVisited(arena: Arena, t: Handle, pkg: Option<Package>, name: string, depth: nat,
                       e: EmbeddedType, st: SearchState)
    requires VisitPre(arena, t, pkg, name, depth, e, st)
    requires !Match(arena, e.typ, pkg, name) && forall next :: Expanded(arena, e, next)
    ensures VisitedOK(arena, t, pkg, name, depth, e, st, st)
  {
    assert st.next[..|st.next|] == st.next;
  }

  /** Clearing the type-parameter flag before the switch does not change what the visit establishes. */
  lemma VisitedWithoutTpar(arena: Arena, t: Handle, pkg: Option<Package>, name: string, depth: nat,
                           e: EmbeddedType, st: SearchState, st0: SearchState, st': SearchState)
    requires st0 == st.(tpar := false)
    requires VisitedOK(arena, t, pkg, name, depth, e, st0, st')
    ensures VisitedOK(arena, t, pkg, name, depth, e, st, st')
  {
  }

  /** Selected picks exactly the entry i of h, which is obj. */
  ghost predicate SelectsOnly(arena: Arena, h: Handle, i: nat, obj: Object, pkg: Option<Package>, name: string)
  {
    Selected(arena, h, i, pkg, name) == Some(obj) && OnlyAt(arena, h, i, pkg, name)
  }

  /**
   * lookupMethod on the methods an entry offers: a match is recorded, and
   * it is a collision exactly when something already matched at this depth
   * or the entry occurs more than once.
   */
  method MatchMethods(arena: Arena, t: Handle, pkg: Option<Package>, name: string, depth: nat,
                      e: EmbeddedType, ms: seq<Func>, bound: bool, st: SearchState)
    returns (st': SearchState, collided: bool, found: bool)
    requires name != "_"
    requires VisitPre(arena, t, pkg, name, depth, e, st)
    requires MethodIndex(ms, pkg, name) >= 0 ==>
               SelectsOnly(arena, e.typ, MethodIndex(ms, pkg, name), MethodObj(ms[MethodIndex(ms, pkg, name)]), pkg, name)
    requires bound ==> forall i :: 0 <= i < |ms| ==> !ms[i].ptrRecv
    ensures found <==> MethodIndex(ms, pkg, name) >= 0
    ensures collided <==> found && (st.obj.Some? || e.multiples)
    ensures collided ==> Collision(arena, t, depth, st'.index, pkg, name)
    ensures !found ==> st' == st
    ensures found && !collided ==>
              VisitedOK(arena, t, pkg, name, depth, e, st, st') && st'.seen == st.seen && st'.next == st.next
  {
    var i, m := LookupMethod(ms, pkg, name);
    st', collided, found := st, false, m.Some?;
    if m.Some? {
      var index := Concat(e.index, i);
      FoundHere(arena, t, e, i, MethodObj(m.value), pkg, name);
      if st.obj.Some? || e.multiples {
        CollisionHere(arena, t, pkg, name, depth, e, i, st);
        return st.(index := index), true, true;
      }
      st' := st.(obj := Some(MethodObj(m.value)), index := index, indirect := e.indirect,
                 tpar := if bound then true else st.tpar);
      assert index[..depth] == e.index;
    }
  }

  /**
   * A match on e at index i collides when the state already holds a match
   * (on another path) or e is reached along another path too.
   */
  lemma CollisionHere(arena: Arena, t: Handle, pkg: Option<Package>, name: string, depth: nat,
                      e: EmbeddedType, i: nat, st: SearchState)
    requires |e.index| == depth && Reach(arena, t, e.index) == Some((e.typ, e.indirect))
    requires Selected(arena, e.typ, i, pkg, name).Some?
    requires StateOK(arena, t, depth, st, pkg, name)
    requires st.obj.Some? ==> st.index != e.index + [i]
    requires st.obj.Some? || (e.multiples && OtherPathTo(arena, t, e))
    ensures Collision(arena, t, depth, e.index + [i], pkg, name)
  {
    var p := e.index + [i];
    FoundHere(arena, t, e, i, Selected(arena, e.typ, i, pkg, name).value, pkg, name);
    if st.obj.Some? {
      assert SelectedAlong(arena, t, st.index, pkg, name).Some?;
    } else {
      var q0 :| |q0| == |e.index| && q0 != e.index && Reach(arena, t, q0).Some?
                && Ident(arena, Reach(arena, t, q0).value.0, e.typ);
      var q := q0 + [i];
      assert q[..|q0|] == q0 && q[|q0|] == i;
      IdentSameSelected(arena, Reach(arena, t, q0).value.0, e.typ, i, pkg, name);
      assert SelectedAlong(arena, t, q, pkg, name).Some?;
      assert q[..depth] != p[..depth];
    }
  }

  /**
   * The field loop for a struct entry: a matching field is a match (a
   * second one a collision), and embedded fields are collected for the next
   * depth as long as nothing matched.
   */
  method ScanFields(arena: Arena, t: Handle, pkg: Option<Package>, name: string, depth: nat,
                    e: EmbeddedType, fields: seq<Var>, st: SearchState)
    returns (st': SearchState, collided: bool)
    requires WF(arena) && name != "_"
    requires NodeOf(arena, Under(arena, e.typ)) == Struct(fields)
    requires NoDeclaredMatch(arena, e.typ, pkg, name)
    requires VisitPre(arena, t, pkg, name, depth, e, st) && !st.tpar
    ensures collided ==> exists j :: 0 <= j < |fields| && VarSameId(fields[j], pkg, name)
    ensures (st.obj.Some? || e.multiples) && (exists j :: 0 <= j < |fields| && VarSameId(fields[j], pkg, name)) ==>
              collided
    ensures collided ==> Collision(arena, t, depth, st'.index, pkg, name)
    ensures !collided ==> VisitedOK(arena, t, pkg, name, depth, e, st, st') && st'.seen == st.seen
  {
    st', collided := st, false;
    var j := 0;
    while j < |fields|
      invariant 0 <= j <= |fields|
      invariant FieldsInv(arena, t, depth, e, fields, j, st, st', pkg, name)
    {
      st', collided := VisitField(arena, t, pkg, name, depth, e, fields, j, st, st');
      if collided {
        return;
      }
      j := j + 1;
    }
    FieldsDone(arena, t, pkg, name, depth, e, fields, st, st');
  }

  /** The field loop's invariant after the first j fields, starting from st0. */
  ghost predicate FieldsInv(arena: Arena, t: Handle, depth: nat, e: EmbeddedType, fields: seq<Var>, j: nat,
                            st0: SearchState, st: SearchState, pkg: Option<Package>, name: string)
    requires j <= |fields|
  {
    StructOf(arena, e.typ) == Some(fields)
    && VisitPre(arena, t, pkg, name, depth, e, st0)
    && StateOK(arena, t, depth, st, pkg, name) && NextPaths(arena, t, st.next) && st.seen == st0.seen && !st.tpar
    && |st0.next| <= |st.next| && st.next[..|st0.next|] == st0.next
    && (forall m :: |st0.next| <= m < |st.next| ==> st.next[m].index[..depth] == e.index && st.next[m].index[depth] < j)
    && (st0.obj.Some? ==>
          st.obj == st0.obj && st.index == st0.index && st.indirect == st0.indirect && st.next == st0.next)
    && (st0.obj.None? && st.obj.Some? ==> st.index[..depth] == e.index && st.index[depth] < j && !e.multiples)
    && (forall j' :: 0 <= j' < j && VarSameId(fields[j'], pkg, name) ==>
          st0.obj.None? && st.obj.Some? && st.index[depth] == j')
    && (st.obj.None? ==> forall j' :: 0 <= j' < j && Step(arena, e.typ, e.indirect, j').Some? ==>
          Child(arena, e, j') in st.next)
  }

  /**
   * One field of a struct entry: a match, a collision (exactly when a
   * match was already made or the entry is a multiple), or an embedded field
   * to collect.
   */
  method VisitField(arena: Arena, t: Handle, pkg: Option<Package>, name: string, depth: nat,
                    e: EmbeddedType, fields: seq<Var>, j: nat, st0: SearchState, st: SearchState)
    returns (st': SearchState, collided: bool)
    requires WF(arena)
    requires NoDeclaredMatch(arena, e.typ, pkg, name)
    requires j < |fields| && FieldsInv(arena, t, depth, e, fields, j, st0, st, pkg, name)
    ensures collided <==> VarSameId(fields[j], pkg, name) && (st.obj.Some? || e.multiples)
    ensures collided ==> Collision(arena, t, depth, st'.index, pkg, name)
    ensures !collided ==> FieldsInv(arena, t, depth, e, fields, j + 1, st0, st', pkg, name)
  {
    st', collided := st, false;
    var f := fields[j];
    if VarSameId(f, pkg, name) {
      var index := Concat(e.index, j);
      FieldSelected(arena, t, pkg, name, depth, e, fields, j, st0, st);
      if st.obj.Some? || e.multiples {
        CollisionHere(arena, t, pkg, name, depth, e, j, st);
        return st.(index := index), true;
      }
      st' := st.(obj := Some(FieldObj(f)), index := index, indirect := e.indirect);
      FieldMatched(arena, t, pkg, name, depth, e, fields, j, st0, st, st');
    } else if st.obj.None? && f.embedded {
      var x := EmbeddedType(Deref(arena, f.typ), Concat(e.index, j), e.indirect || IsPtr(arena, f.typ), e.multiples);
      st' := st.(next := st.next + [x]);
      FieldCollected(arena, t, pkg, name, depth, e, fields, j, st0, st, x, st');
    } else {
      FieldSkipped(arena, t, pkg, name, depth, e, fields, j, st0, st);
    }
  }

  /** A matching field of a struct entry is selected on the entry's path, and differs from a match made before. */
  lemma FieldSelected(arena: Arena, t: Handle, pkg: Option<Package>, name: string, depth: nat,
                      e: EmbeddedType, fields: seq<Var>, j: nat, st0: SearchState, st: SearchState)
    requires NoDeclaredMatch(arena, e.typ, pkg, name)
    requires j < |fields| && FieldsInv(arena, t, depth, e, fields, j, st0, st, pkg, name)
    requires VarSameId(fields[j], pkg, name)
    ensures Selected(arena, e.typ, j, pkg, name) == Some(FieldObj(fields[j]))
    ensures FoundAt(arena, t, e.index + [j], FieldObj(fields[j]), e.indirect, pkg, name)
    ensures st.obj.Some? ==> st.index != e.index + [j]
  {
    FoundHere(arena, t, e, j, FieldObj(fields[j]), pkg, name);
    assert (e.index + [j])[..depth] == e.index && (e.index + [j])[depth] == j;
  }

  /** A first matching field is recorded. */
  lemma FieldMatched(arena: Arena, t: Handle, pkg: Option<Package>, name: string, depth: nat,
                     e: EmbeddedType, fields: seq<Var>, j: nat, st0: SearchState, st: SearchState, st': SearchState)
    requires j < |fields| && FieldsInv(arena, t, depth, e, fields, j, st0, st, pkg, name)
    requires VarSameId(fields[j], pkg, name) && st.obj.None? && !e.multiples
    requires FoundAt(arena, t, e.index + [j], FieldObj(fields[j]), e.indirect, pkg, name)
    requires st' == st.(obj := Some(FieldObj(fields[j])), index := e.index + [j], indirect := e.indirect)
    ensures FieldsInv(arena, t, depth, e, fields, j + 1, st0, st', pkg, name)
  {
    assert st'.index[..depth] == e.index && st'.index[depth] == j;
  }

  /** An embedded field that does not match is collected while nothing matched. */
  lemma FieldCollected(arena: Arena, t: Handle, pkg: Option<Package>, name: string, depth: nat,
                       e: EmbeddedType, fields: seq<Var>, j: nat, st0: SearchState, st: SearchState,
                       x: EmbeddedType, st': SearchState)
    requires WF(arena)
    requires j < |fields| && FieldsInv(arena, t, depth, e, fields, j, st0, st, pkg, name)
    requires !VarSameId(fields[j], pkg, name) && st.obj.None? && fields[j].embedded
    requires x == EmbeddedType(Deref(arena, fields[j].typ), e.index + [j], e.indirect || IsPtr(arena, fields[j].typ), e.multiples)
    requires st' == st.(next := st.next + [x])
    ensures FieldsInv(arena, t, depth, e, fields, j + 1, st0, st', pkg, name)
  {
    PushEmbedded(arena, t, depth, e, fields, j, st0.next, st.next, x);
    forall j' | 0 <= j' < j + 1 && Step(arena, e.typ, e.indirect, j').Some?
      ensures Child(arena, e, j') in st'.next
    {
      if j' < j {
        assert Child(arena, e, j') in st.next;
      }
    }
  }

  /** A field that neither matches nor is collected leaves the state alone. */
  lemma FieldSkipped(arena: Arena, t: Handle, pkg: Option<Package>, name: string, depth: nat,
                     e: EmbeddedType, fields: seq<Var>, j: nat, st0: SearchState, st: SearchState)
    requires j < |fields| && FieldsInv(arena, t, depth, e, fields, j, st0, st, pkg, name)
    requires !VarSameId(fields[j], pkg, name) && !(st.obj.None? && fields[j].embedded)
    ensures FieldsInv(arena, t, depth, e, fields, j + 1, st0, st, pkg, name)
  {
  }

  /** The field loop ran to the end without a collision. */
  lemma FieldsDone(arena: Arena, t: Handle, pkg: Option<Package>, name: string, depth: nat,
                   e: EmbeddedType, fields: seq<Var>, st0: SearchState, st: SearchState)
    requires NoDeclaredMatch(arena, e.typ, pkg, name)
    requires FieldsInv(arena, t, depth, e, fields, |fields|, st0, st, pkg, name)
    ensures VisitedOK(arena, t, pkg, name, depth, e, st0, st)
  {
    forall i: nat | Selected(arena, e.typ, i, pkg, name).Some?
      ensures i < |fields| && VarSameId(fields[i], pkg, name)
    {
    }
    if st.obj.None? {
      NoFieldMatches(arena, e, fields, st.next, pkg, name);
    }
  }

  /** An entry that selects obj at i gives a match on the path one index longer. */
  lemma FoundHere(arena: Arena, t: Handle, e: EmbeddedType, i: nat, obj: Object, pkg: Option<Package>, name: string)
    requires Reach(arena, t, e.index) == Some((e.typ, e.indirect))
    requires Selected(arena, e.typ, i, pkg, name) == Some(obj)
    ensures FoundAt(arena, t, e.index + [i], obj, e.indirect, pkg, name)
    ensures SelectedAlong(arena, t, e.index + [i], pkg, name) == Some(obj)
  {
    assert (e.index + [i])[..|e.index|] == e.index;
  }

  /**
   * Collecting the embedded field j of a struct entry for the next depth:
   * the new entry is the field's child entry, reached along its path, on a
   * path no other entry has, and reached along another path as well when
   * it is marked as a multiple.
   */
  lemma PushEmbedded(arena: Arena, t: Handle, depth: nat, e: EmbeddedType, fields: seq<Var>, j: nat,
                     base: seq<EmbeddedType>, next: seq<EmbeddedType>, x: EmbeddedType)
    requires WF(arena)
    requires |e.index| == depth && Reach(arena, t, e.index) == Some((e.typ, e.indirect))
    requires StructOf(arena, e.typ) == Some(fields)
    requires j < |fields| && fields[j].embedded
    requires x == EmbeddedType(Deref(arena, fields[j].typ), e.index + [j], e.indirect || IsPtr(arena, fields[j].typ), e.multiples)
    requires NextOK(arena, t, depth, next) && NextPaths(arena, t, next)
    requires |base| <= |next| && next[..|base|] == base && NextAvoids(base, depth, e.index)
    requires forall m :: |base| <= m < |next| ==> next[m].index[..depth] == e.index && next[m].index[depth] < j
    requires e.multiples ==> OtherPathTo(arena, t, e)
    ensures Step(arena, e.typ, e.indirect, j).Some? && x == Child(arena, e, j)
    ensures NextOK(arena, t, depth, next + [x]) && NextPaths(arena, t, next + [x])
    ensures (next + [x])[..|base|] == base
    ensures forall m :: |base| <= m < |next + [x]| ==>
              (next + [x])[m].index[..depth] == e.index && (next + [x])[m].index[depth] < j + 1
  {
    var u := Under(arena, e.typ);
    assert u < |arena| && WFAt(arena, u);
    ReachSnoc(arena, t, e.index, j);
    var next' := next + [x];
    assert next'[..|base|] == next[..|base|];
    assert x.index[..depth] == e.index && x.index[depth] == j;
    forall m1, m2 | 0 <= m1 < m2 < |next'| ensures next'[m1].index != next'[m2].index {
      if m2 == |next| {
        if m1 < |base| {
          assert next'[m1] == base[m1];
          assert base[m1].index[..depth] != e.index;
        }
      }
    }
    if e.multiples {
      var q0 :| |q0| == |e.index| && q0 != e.index && Reach(arena, t, q0).Some?
                && Ident(arena, Reach(arena, t, q0).value.0, e.typ);
      var g := Reach(arena, t, q0).value;
      ReachSnoc(arena, t, q0, j);
      StepIdent(arena, g.0, e.typ, g.1, e.indirect, j);
      var q := q0 + [j];
      assert q[..depth] == q0 && x.index[..depth] == e.index;
      assert |q| == |x.index| && q != x.index && Reach(arena, t, q).Some? && Ident(arena, Reach(arena, t, q).value.0, x.typ);
      assert OtherPathTo(arena, t, x);
    }
    assert next'[|next|] == x;
  }

  /** A struct entry none of whose fields matched: no match, and all its embedded fields were collected. */
  lemma NoFieldMatches(arena: Arena, e: EmbeddedType, fields: seq<Var>, next: seq<EmbeddedType>,
                       pkg: Option<Package>, name: string)
    requires StructOf(arena, e.typ) == Some(fields)
    requires NoDeclaredMatch(arena, e.typ, pkg, name)
    requires forall j' :: 0 <= j' < |fields| ==> !VarSameId(fields[j'], pkg, name)
    requires forall j' :: 0 <= j' < |fields| && Step(arena, e.typ, e.indirect, j').Some? ==> Child(arena, e, j') in next
    ensures !Match(arena, e.typ, pkg, name) && Expanded(arena, e, next)
  {
    forall i: nat ensures Selected(arena, e.typ, i, pkg, name).None? {
    }
    forall i: nat | Step(arena, e.typ, e.indirect, i).Some?
      ensures Child(arena, e, i) in next
    {
      assert i < |fields|;
    }
  }

  /** A named type has no declared method for (pkg, name). */
  predicate NoDeclaredMatch(arena: Arena, h: Handle, pkg: Option<Package>, name: string)
  {
    NodeOf(arena, h).Named? ==>
      forall j :: 0 <= j < |NodeOf(arena, h).methods| ==> !FuncSameId(NodeOf(arena, h).methods[j], pkg, name)
  }

  // ---------------------------------------------------------------------
  // Proof steps.

  lemma NoEntryBelowTypeParam(arena: Arena, e: EmbeddedType, pkg: Option<Package>, name: string)
    requires NodeOf(arena, e.typ).Named? && NodeOf(arena, NodeOf(arena, e.typ).underlying).TypeParam?
    requires NoDeclaredMatch(arena, e.typ, pkg, name)
    ensures !Match(arena, e.typ, pkg, name) && forall next :: Expanded(arena, e, next)
  {
  }

  lemma NoEntryInInterface(arena: Arena, e: EmbeddedType, ms: seq<Func>, pkg: Option<Package>, name: string)
    requires NodeOf(arena, Under(arena, e.typ)) == Interface(ms) || NodeOf(arena, Under(arena, e.typ)) == TypeParam(ms)
    requires !(NodeOf(arena, e.typ).Named? && NodeOf(arena, NodeOf(arena, e.typ).underlying).TypeParam?)
    requires NoDeclaredMatch(arena, e.typ, pkg, name)
    requires forall j :: 0 <= j < |ms| ==> !FuncSameId(ms[j], pkg, name)
    ensures !Match(arena, e.typ, pkg, name) && forall next :: Expanded(arena, e, next)
  {
    forall i: nat ensures Selected(arena, e.typ, i, pkg, name).None? {
    }
  }

  lemma NoEntryInOtherKinds(arena: Arena, e: EmbeddedType, pkg: Option<Package>, name: string)
    requires var u := NodeOf(arena, Under(arena, e.typ)); !u.Struct? && !u.Interface? && !u.TypeParam?
    requires NoDeclaredMatch(arena, e.typ, pkg, name)
    ensures !Match(arena, e.typ, pkg, name) && forall next :: Expanded(arena, e, next)
  {
    forall i: nat ensures Selected(arena, e.typ, i, pkg, name).None? {
    }
  }

  /** Two entries of a depth never share an index path. */
  lemma EntriesDistinct(arena: Arena, t: Handle, d: nat, current: seq<EmbeddedType>)
    requires EntriesOK(arena, t, d, current)
    ensures forall i, j :: 0 <= i < |current| && 0 <= j < |current| && i != j ==> current[i].index != current[j].index
  {
  }

  /** The entry loop's invariant gives what visiting entry k needs. */
  lemma EntryReady(arena: Arena, t: Handle, pkg: Option<Package>, name: string, depth: nat,
                   current: seq<EmbeddedType>, seen0: set<Handle>, k: nat, st: SearchState)
    requires EntriesOK(arena, t, depth, current) && MultiplesRepeat(arena, t, current)
    requires k < |current| && Scanned(arena, t, pkg, name, depth, current, seen0, k, st)
    ensures VisitPre(arena, t, pkg, name, depth, current[k], st)
    ensures depth >= 1 ==> !NodeOf(arena, current[k].typ).Struct?
  {
  }

  /** The entry loop's invariant survives visiting entry k. */
  lemma EntryDone(arena: Arena, t: Handle, pkg: Option<Package>, name: string, depth: nat,
                  current: seq<EmbeddedType>, seen0: set<Handle>, k: nat, st: SearchState, st': SearchState)
    requires EntriesOK(arena, t, depth, current)
    requires k < |current| && Scanned(arena, t, pkg, name, depth, current, seen0, k, st)
    requires VisitPre(arena, t, pkg, name, depth, current[k], st)
    requires Shadowed(arena, current[k], st.seen) ==> st' == st
    requires !Shadowed(arena, current[k], st.seen) ==> VisitedOK(arena, t, pkg, name, depth, current[k], st, st')
    requires st'.seen == (if NodeOf(arena, current[k].typ).Named? then st.seen + {current[k].typ} else st.seen)
    requires |st'.next| > |st.next| ==> depth == 0 || (NodeOf(arena, current[k].typ).Named? && current[k].typ !in st.seen)
    ensures Scanned(arena, t, pkg, name, depth, current, seen0, k + 1, st')
  {
    EntriesDistinct(arena, t, depth, current);
    ShadowedBefore(arena, t, depth, current, seen0, k, st.seen);
    EntryDoneSeen(arena, current, seen0, k, st.seen, st'.seen, |st.next|, |st'.next|, depth);
    EntryDoneAvoids(arena, t, pkg, name, depth, current, seen0, k, st, st');
    if st'.obj.None? {
      EntryDoneSettled(arena, t, pkg, name, depth, current, seen0, k, st, st');
    } else {
      EntryDoneSole(arena, t, pkg, name, depth, current, seen0, k, st, st');
    }
  }

  /** A shadowed entry of the current depth was shadowed by an earlier depth. */
  lemma ShadowedBefore(arena: Arena, t: Handle, depth: nat, current: seq<EmbeddedType>, seen0: set<Handle>,
                       k: nat, seen: set<Handle>)
    requires EntriesOK(arena, t, depth, current) && k < |current|
    requires forall n :: n in seen ==> n in seen0 || exists k' :: 0 <= k' < k && current[k'].typ == n
    ensures current[k].typ in seen ==> current[k].typ in seen0
  {
  }

  lemma EntryDoneSeen(arena: Arena, current: seq<EmbeddedType>, seen0: set<Handle>, k: nat,
                      seen: set<Handle>, seen': set<Handle>, n: nat, n': nat, depth: nat)
    requires k < |current|
    requires seen0 <= seen <= NamedSet(arena)
    requires forall h :: h in seen ==> h in seen0 || exists k' :: 0 <= k' < k && current[k'].typ == h
    requires n > 0 ==> depth == 0 || seen != seen0
    requires seen' == (if NodeOf(arena, current[k].typ).Named? then seen + {current[k].typ} else seen)
    requires current[k].typ in seen ==> current[k].typ in seen0
    requires n' > n ==> depth == 0 || (NodeOf(arena, current[k].typ).Named? && current[k].typ !in seen)
    ensures seen0 <= seen' <= NamedSet(arena)
    ensures forall h :: h in seen' ==> h in seen0 || exists k' :: 0 <= k' < k + 1 && current[k'].typ == h
    ensures n' > 0 && n' >= n ==> depth == 0 || seen' != seen0
  {
    if NodeOf(arena, current[k].typ).Named? {
      assert current[k].typ < |arena| && arena[current[k].typ].Named?;
    }
    forall h | h in seen' ensures h in seen0 || exists k' :: 0 <= k' < k + 1 && current[k'].typ == h {
      if h in seen && h !in seen0 {
        var k' :| 0 <= k' < k && current[k'].typ == h;
      }
    }
    if n' > 0 && n' >= n && depth != 0 && n' > n {
      assert current[k].typ in seen' && current[k].typ !in seen0;
    }
  }

  lemma EntryDoneAvoids(arena: Arena, t: Handle, pkg: Option<Package>, name: string, depth: nat,
                        current: seq<EmbeddedType>, seen0: set<Handle>, k: nat, st: SearchState, st': SearchState)
    requires k < |current|
    requires forall i, j :: 0 <= i < |current| && 0 <= j < |current| && i != j ==> current[i].index != current[j].index
    requires forall k' :: k <= k' < |current| ==> NextAvoids(st.next, depth, current[k'].index)
    requires NextOK(arena, t, depth, st'.next)
    requires |st.next| <= |st'.next| && st'.next[..|st.next|] == st.next
    requires forall m :: |st.next| <= m < |st'.next| ==> st'.next[m].index[..depth] == current[k].index
    ensures forall k' :: k + 1 <= k' < |current| ==> NextAvoids(st'.next, depth, current[k'].index)
  {
    forall k', m | k + 1 <= k' < |current| && 0 <= m < |st'.next| && depth <= |st'.next[m].index|
      ensures st'.next[m].index[..depth] != current[k'].index
    {
      if m < |st.next| {
        assert st'.next[m] == st.next[m];
      }
    }
  }

  lemma EntryDoneSettled(arena: Arena, t: Handle, pkg: Option<Package>, name: string, depth: nat,
                         current: seq<EmbeddedType>, seen0: set<Handle>, k: nat, st: SearchState, st': SearchState)
    requires k < |current| && Scanned(arena, t, pkg, name, depth, current, seen0, k, st)
    requires current[k].typ in st.seen ==> current[k].typ in seen0
    requires Shadowed(arena, current[k], st.seen) ==> st' == st
    requires !Shadowed(arena, current[k], st.seen) ==> VisitedOK(arena, t, pkg, name, depth, current[k], st, st')
    requires st'.obj.None?
    ensures forall k' :: 0 <= k' < k + 1 ==> Settled(arena, current[k'], seen0, st'.next, pkg, name)
  {
    assert st.obj.None?;
    forall k' | 0 <= k' < k + 1 ensures Settled(arena, current[k'], seen0, st'.next, pkg, name) {
      if k' < k {
        SettledGrows(arena, current[k'], seen0, st.next, st'.next, pkg, name);
      }
    }
  }

  lemma EntryDoneSole(arena: Arena, t: Handle, pkg: Option<Package>, name: string, depth: nat,
                      current: seq<EmbeddedType>, seen0: set<Handle>, k: nat, st: SearchState, st': SearchState)
    requires k < |current| && Scanned(arena, t, pkg, name, depth, current, seen0, k, st)
    requires forall i, j :: 0 <= i < |current| && 0 <= j < |current| && i != j ==> current[i].index != current[j].index
    requires VisitPre(arena, t, pkg, name, depth, current[k], st)
    requires current[k].typ in st.seen ==> current[k].typ in seen0
    requires Shadowed(arena, current[k], st.seen) ==> st' == st
    requires !Shadowed(arena, current[k], st.seen) ==> VisitedOK(arena, t, pkg, name, depth, current[k], st, st')
    requires st'.obj.Some? && StateOK(arena, t, depth, st', pkg, name)
    ensures SoleMatch(arena, pkg, name, depth, current, seen0, k + 1, st')
  {
    var e := current[k];
    if st.obj.None? {
      assert !Shadowed(arena, e, st.seen);
      assert st'.index[..depth] == e.index;
      forall k' | 0 <= k' < k + 1 && current[k'].typ !in seen0 && current[k'].index != st'.index[..depth]
        ensures !Match(arena, current[k'].typ, pkg, name)
      {
        assert Settled(arena, current[k'], seen0, st.next, pkg, name);
      }
    } else {
      assert st'.index == st.index;
    }
  }

  lemma SettledGrows(arena: Arena, e: EmbeddedType, seen0: set<Handle>, next: seq<EmbeddedType>,
                     next': seq<EmbeddedType>, pkg: Option<Package>, name: string)
    requires Settled(arena, e, seen0, next, pkg, name)
    requires |next| <= |next'| && next'[..|next|] == next
    ensures Settled(arena, e, seen0, next', pkg, name)
  {
    if e.typ !in seen0 {
      forall i: nat | Step(arena, e.typ, e.indirect, i).Some?
        ensures Child(arena, e, i) in next'
      {
        var m :| 0 <= m < |next| && next[m] == Child(arena, e, i);
        assert next'[m] == next[m];
      }
    }
  }

  /**
   * The match left at the end of a depth is on the only path of its length
   * that selects anything: every other path of that length ends on a type
   * with no match, or on the one entry that holds it, which is reached along
   * no other path and offers nothing else.
   */
  lemma SoleSelection(arena: Arena, t: Handle, pkg: Option<Package>, name: string, depth: nat,
                      current: seq<EmbeddedType>, seen: set<Handle>, st: SearchState)
    requires DepthInv(arena, t, depth, current, seen, pkg, name)
    requires Scanned(arena, t, pkg, name, depth, current, seen, |current|, st) && st.obj.Some?
    ensures OnlySelection(arena, t, st.index, pkg, name)
  {
    forall q: seq<nat> | |q| == |st.index| && SelectedAlong(arena, t, q, pkg, name).Some?
      ensures q == st.index
    {
      SelectionOnEntry(arena, t, pkg, name, depth, current, seen, st, q);
    }
  }

  lemma SelectionOnEntry(arena: Arena, t: Handle, pkg: Option<Package>, name: string, depth: nat,
                         current: seq<EmbeddedType>, seen: set<Handle>, st: SearchState, q: seq<nat>)
    requires Covered(arena, t, depth, current) && NoMatchAbove(arena, t, depth, pkg, name)
    requires seen <= NamedSet(arena) && forall n :: n in seen ==> ShorterReach(arena, t, depth, n)
    requires SinglesUnique(arena, t, current)
    requires |st.index| == depth + 1 && SoleMatch(arena, pkg, name, depth, current, seen, |current|, st)
    requires |q| == depth + 1 && SelectedAlong(arena, t, q, pkg, name).Some?
    ensures q == st.index
  {
    var q0, jj := q[..depth], q[depth];
    SplitSelection(arena, t, q, pkg, name);
    var g := Reach(arena, t, q0).value.0;
    NoShorterMatch(arena, t, depth, g, pkg, name);
    var k0 := EntryFor(arena, t, depth, current, seen, q0);
    SoleEntry(arena, t, pkg, name, depth, current, seen, st, k0, q0, jj);
    assert st.index == st.index[..depth] + [st.index[depth]];
  }

  /** A selecting path is a path to a type that selects its last index. */
  lemma SplitSelection(arena: Arena, t: Handle, q: seq<nat>, pkg: Option<Package>, name: string)
    requires SelectedAlong(arena, t, q, pkg, name).Some?
    ensures |q| >= 1 && q == q[..|q| - 1] + [q[|q| - 1]]
    ensures Reach(arena, t, q[..|q| - 1]).Some?
    ensures Selected(arena, Reach(arena, t, q[..|q| - 1]).value.0, q[|q| - 1], pkg, name).Some?
    ensures Match(arena, Reach(arena, t, q[..|q| - 1]).value.0, pkg, name)
  {
  }

  /** A type that matches is reached along no path shorter than the depth where matches begin. */
  lemma NoShorterMatch(arena: Arena, t: Handle, depth: nat, g: Handle, pkg: Option<Package>, name: string)
    requires NoMatchAbove(arena, t, depth, pkg, name) && Match(arena, g, pkg, name)
    ensures !ShorterReach(arena, t, depth, g)
  {
  }

  /** The entry a selection at the match's depth goes through is the match's own entry. */
  lemma SoleEntry(arena: Arena, t: Handle, pkg: Option<Package>, name: string, depth: nat,
                  current: seq<EmbeddedType>, seen: set<Handle>, st: SearchState, k0: nat, q0: seq<nat>, jj: nat)
    requires SinglesUnique(arena, t, current)
    requires |st.index| == depth + 1 && SoleMatch(arena, pkg, name, depth, current, seen, |current|, st)
    requires k0 < |current| && current[k0].typ !in seen
    requires |q0| == depth && Reach(arena, t, q0).Some? && !ShorterReach(arena, t, depth, Reach(arena, t, q0).value.0)
    requires Ident(arena, current[k0].typ, Reach(arena, t, q0).value.0)
    requires Ident(arena, Reach(arena, t, q0).value.0, current[k0].typ)
    requires Selected(arena, Reach(arena, t, q0).value.0, jj, pkg, name).Some?
    ensures q0 == st.index[..depth] && jj == st.index[depth]
  {
    var g := Reach(arena, t, q0).value.0;
    var e0 := current[k0];
    IdentSameSelected(arena, g, e0.typ, jj, pkg, name);
    assert Match(arena, e0.typ, pkg, name);
    assert e0.index == st.index[..depth];
    assert q0 == e0.index;
  }

  /**
   * A type reached along depth fields and along no shorter path is
   * identical to an entry of the depth that no earlier one shadows.
   */
  lemma EntryFor(arena: Arena, t: Handle, depth: nat, current: seq<EmbeddedType>, seen: set<Handle>, q0: seq<nat>)
    returns (k0: nat)
    requires Covered(arena, t, depth, current)
    requires seen <= NamedSet(arena) && forall n :: n in seen ==> ShorterReach(arena, t, depth, n)
    requires |q0| == depth && Reach(arena, t, q0).Some? && !ShorterReach(arena, t, depth, Reach(arena, t, q0).value.0)
    ensures k0 < |current| && current[k0].typ !in seen
    ensures Ident(arena, current[k0].typ, Reach(arena, t, q0).value.0)
    ensures Ident(arena, Reach(arena, t, q0).value.0, current[k0].typ)
  {
    var g := Reach(arena, t, q0).value.0;
    k0 :| 0 <= k0 < |current| && Ident(arena, current[k0].typ, g);
    if current[k0].typ in seen {
      assert false;
    }
    IdentSymmetric(arena, current[k0].typ, g);
  }

  /** Identical types take the same step down a field, whatever the pointer flag. */
  lemma StepIdent(arena: Arena, a: Handle, b: Handle, i1: bool, i2: bool, i: nat)
    requires Ident(arena, a, b)
    ensures Step(arena, a, i1, i).Some? == Step(arena, b, i2, i).Some?
    ensures Step(arena, a, i1, i).Some? ==> Step(arena, a, i1, i).value.0 == Step(arena, b, i2, i).value.0
  {
    assert StructOf(arena, a) == StructOf(arena, b);
  }

  /** Nothing in the state changes the number of entries a consolidation keeps to zero or from zero. */
  lemma ConsolidatedCountsDown(arena: Arena, next: seq<EmbeddedType>)
    ensures |Consolidated(arena, next)| <= |next|
    ensures |next| > 0 ==> |Consolidated(arena, next)| > 0
  {
    ConsolidatedEntries(arena, next);
    if |next| > 0 {
      ConsolidatedCovers(arena, next, 0);
    }
  }

  lemma MeasureDrops(arena: Arena, depth: nat, depth': nat, current: seq<EmbeddedType>, seen: set<Handle>,
                     seen': set<Handle>, next: seq<EmbeddedType>, current': seq<EmbeddedType>)
    requires depth' == depth + 1
    requires seen <= seen' <= NamedSet(arena) && |current| > 0
    requires |next| > 0 ==> depth == 0 || seen' != seen
    requires current' == Consolidated(arena, next)
    ensures Measure(NamedSet(arena), depth', current', seen') < Measure(NamedSet(arena), depth, current, seen)
  {
    ConsolidatedCountsDown(arena, next);
    SeenShrinks(NamedSet(arena), seen, seen');
  }

  lemma SeenShrinks(all: set<Handle>, seen0: set<Handle>, seen: set<Handle>)
    requires seen0 <= seen <= all
    ensures |all - seen| <= |all - seen0|
    ensures seen != seen0 ==> |all - seen| < |all - seen0|
  {
    SubsetCard(all - seen, all - seen0);
    if seen != seen0 {
      var x :| x in seen && x !in seen0;
      assert x in all - seen0 && x !in all - seen;
    }
  }

  lemma {:induction false} SubsetCard<T>(a: set<T>, b: set<T>)
    requires a <= b
    ensures |a| <= |b|
    ensures a < b ==> |a| < |b|
  {
    if a != {} {
      var x :| x in a;
      SubsetCard(a - {x}, b - {x});
    } else if a < b {
      var y :| y in b;
    }
  }

  /** After a depth with no match, the invariant holds at the next depth for the consolidated entries. */
  lemma AdvanceDepth(arena: Arena, t: Handle, pkg: Option<Package>, name: string, depth: nat,
                     current: seq<EmbeddedType>, seen0: set<Handle>, st: SearchState)
    requires WF(arena)
    requires DepthInv(arena, t, depth, current, seen0, pkg, name)
    requires Scanned(arena, t, pkg, name, depth, current, seen0, |current|, st) && st.obj.None?
    ensures DepthInv(arena, t, depth + 1, Consolidated(arena, st.next), st.seen, pkg, name)
  {
    AdvanceEntries(arena, t, depth, st.next);
    AdvanceSeen(arena, t, depth, current, seen0, st.seen);
    forall p: seq<nat> | |p| == depth + 1 && Reach(arena, t, p).Some?
      ensures (exists k :: 0 <= k < |Consolidated(arena, st.next)|
                 && Ident(arena, Consolidated(arena, st.next)[k].typ, Reach(arena, t, p).value.0))
              || ShorterReach(arena, t, depth + 1, Reach(arena, t, p).value.0)
    {
      CoverStep(arena, t, pkg, name, depth, current, seen0, st.next, p);
    }
    AdvanceNoMatch(arena, t, pkg, name, depth, current, seen0, st.next);
    AdvanceMultiples(arena, t, depth, st.next);
    AdvanceSingles(arena, t, pkg, name, depth, current, seen0, st.next);
  }

  lemma AdvanceEntries(arena: Arena, t: Handle, depth: nat, next: seq<EmbeddedType>)
    requires NextOK(arena, t, depth, next)
    ensures EntriesOK(arena, t, depth + 1, Consolidated(arena, next))
  {
    var cur := Consolidated(arena, next);
    ConsolidatedEntries(arena, next);
    ConsolidatedNoDup(arena, next);
    forall k | 0 <= k < |cur|
      ensures |cur[k].index| == depth + 1 && Reach(arena, t, cur[k].index) == Some((cur[k].typ, cur[k].indirect))
              && !NodeOf(arena, cur[k].typ).Struct?
    {
      var j := FirstIdx(arena, next, |next|)[k];
      assert cur[k].typ == next[j].typ && cur[k].index == next[j].index && cur[k].indirect == next[j].indirect;
    }
  }

  lemma AdvanceSeen(arena: Arena, t: Handle, depth: nat, current: seq<EmbeddedType>, seen0: set<Handle>, seen: set<Handle>)
    requires EntriesOK(arena, t, depth, current)
    requires forall n :: n in seen0 ==> ShorterReach(arena, t, depth, n)
    requires forall n :: n in seen ==> n in seen0 || exists k' :: 0 <= k' < |current| && current[k'].typ == n
    ensures forall n :: n in seen ==> ShorterReach(arena, t, depth + 1, n)
  {
    forall n | n in seen ensures ShorterReach(arena, t, depth + 1, n) {
      if n in seen0 {
        var s :| |s| < depth && Reach(arena, t, s).Some? && Reach(arena, t, s).value.0 == n;
        assert |s| < depth + 1;
      } else {
        var k' :| 0 <= k' < |current| && current[k'].typ == n;
        assert Reach(arena, t, current[k'].index).value.0 == n;
      }
    }
  }

  /** A consolidated entry marked as a multiple is reached along another path. */
  lemma AdvanceMultiples(arena: Arena, t: Handle, depth: nat, next: seq<EmbeddedType>)
    requires NextOK(arena, t, depth, next) && NextPaths(arena, t, next)
    ensures MultiplesRepeat(arena, t, Consolidated(arena, next))
  {
    var cur := Consolidated(arena, next);
    ConsolidatedEntries(arena, next);
    forall i | 0 <= i < |cur| && cur[i].multiples ensures OtherPathTo(arena, t, cur[i]) {
      var j := FirstIdx(arena, next, |next|)[i];
      if !next[j].multiples {
        var m :| 0 <= m < |next| && m != j && Ident(arena, next[m].typ, next[j].typ);
        var q := next[m].index;
        assert j < m;
        assert next[j].index != next[m].index;
        assert |q| == |cur[i].index| && q != cur[i].index && Reach(arena, t, q).Some?
               && Ident(arena, Reach(arena, t, q).value.0, cur[i].typ);
      }
    }
  }

  /** A consolidated entry not marked as a multiple is reached along its own path only. */
  lemma AdvanceSingles(arena: Arena, t: Handle, pkg: Option<Package>, name: string, depth: nat,
                       current: seq<EmbeddedType>, seen0: set<Handle>, next: seq<EmbeddedType>)
    requires DepthInv(arena, t, depth, current, seen0, pkg, name)
    requires NextOK(arena, t, depth, next)
    requires forall k' :: 0 <= k' < |current| ==> Settled(arena, current[k'], seen0, next, pkg, name)
    ensures SinglesUnique(arena, t, Consolidated(arena, next))
  {
    var cur := Consolidated(arena, next);
    ConsolidatedEntries(arena, next);
    forall i, q: seq<nat> | 0 <= i < |cur| && !cur[i].multiples
                            && |q| == |cur[i].index| && Reach(arena, t, q).Some?
                            && Ident(arena, Reach(arena, t, q).value.0, cur[i].typ)
                            && !ShorterReach(arena, t, |q|, Reach(arena, t, q).value.0)
      ensures q == cur[i].index
    {
      var j := FirstIdx(arena, next, |next|)[i];
      assert !next[j].multiples && forall m :: 0 <= m < |next| && m != j ==> !Ident(arena, next[m].typ, next[j].typ);
      OnlyPathBelow(arena, t, pkg, name, depth, current, seen0, next, j, q);
    }
  }

  /**
   * A path of length depth + 1 to the type of a collected entry that is
   * the only one of its kind, with no shorter path to that type, is the
   * entry's own path.
   */
  lemma OnlyPathBelow(arena: Arena, t: Handle, pkg: Option<Package>, name: string, depth: nat,
                      current: seq<EmbeddedType>, seen0: set<Handle>, next: seq<EmbeddedType>, j: nat, q: seq<nat>)
    requires DepthInv(arena, t, depth, current, seen0, pkg, name)
    requires forall k' :: 0 <= k' < |current| ==> Settled(arena, current[k'], seen0, next, pkg, name)
    requires j < |next| && !next[j].multiples
    requires forall m :: 0 <= m < |next| && m != j ==> !Ident(arena, next[m].typ, next[j].typ)
    requires |q| == depth + 1 && Reach(arena, t, q).Some? && Ident(arena, Reach(arena, t, q).value.0, next[j].typ)
    requires !ShorterReach(arena, t, depth + 1, Reach(arena, t, q).value.0)
    ensures q == next[j].index
  {
    var q0, jj := q[..depth], q[depth];
    assert q == q0 + [jj];
    ReachSnoc(arena, t, q0, jj);
    var g := Reach(arena, t, q0).value;
    var target := Reach(arena, t, q).value.0;
    assert Step(arena, g.0, g.1, jj).value.0 == target;
    if ShorterReach(arena, t, depth, g.0) {
      var s :| |s| < depth && Reach(arena, t, s).Some? && Reach(arena, t, s).value.0 == g.0;
      ShorterStep(arena, t, s, jj, g);
      assert false;
    }
    var k0 := EntryFor(arena, t, depth, current, seen0, q0);
    var e0 := current[k0];
    StepIdent(arena, e0.typ, g.0, e0.indirect, g.1, jj);
    assert Child(arena, e0, jj) in next;
    var m :| 0 <= m < |next| && next[m] == Child(arena, e0, jj);
    assert next[m].typ == target;
    IdentSymmetric(arena, target, next[j].typ);
    assert m == j;
    assert q0 == e0.index;
  }

  lemma AdvanceNoMatch(arena: Arena, t: Handle, pkg: Option<Package>, name: string, depth: nat,
                       current: seq<EmbeddedType>, seen0: set<Handle>, next: seq<EmbeddedType>)
    requires DepthInv(arena, t, depth, current, seen0, pkg, name)
    requires forall k' :: 0 <= k' < |current| ==> Settled(arena, current[k'], seen0, next, pkg, name)
    ensures NoMatchAbove(arena, t, depth + 1, pkg, name)
  {
    forall p: seq<nat> | |p| < depth + 1 && Reach(arena, t, p).Some?
      ensures !Match(arena, Reach(arena, t, p).value.0, pkg, name)
    {
      if |p| == depth {
        NoMatchAtDepth(arena, t, pkg, name, depth, current, seen0, next, p);
      }
    }
  }

  /** A path one field deeper than the current depth ends on a consolidated entry or a shallower type. */
  lemma CoverStep(arena: Arena, t: Handle, pkg: Option<Package>, name: string, depth: nat,
                  current: seq<EmbeddedType>, seen0: set<Handle>, next: seq<EmbeddedType>, p: seq<nat>)
    requires Covered(arena, t, depth, current)
    requires seen0 <= NamedSet(arena) && forall n :: n in seen0 ==> ShorterReach(arena, t, depth, n)
    requires forall k' :: 0 <= k' < |current| ==> Settled(arena, current[k'], seen0, next, pkg, name)
    requires |p| == depth + 1 && Reach(arena, t, p).Some?
    ensures (exists k :: 0 <= k < |Consolidated(arena, next)|
               && Ident(arena, Consolidated(arena, next)[k].typ, Reach(arena, t, p).value.0))
            || ShorterReach(arena, t, depth + 1, Reach(arena, t, p).value.0)
  {
    var q, i := p[..depth], p[depth];
    assert p == q + [i];
    ReachSnoc(arena, t, q, i);
    var g := Reach(arena, t, q).value;
    assert Step(arena, g.0, g.1, i).value.0 == Reach(arena, t, p).value.0;
    if exists k :: 0 <= k < |current| && Ident(arena, current[k].typ, g.0) {
      var k :| 0 <= k < |current| && Ident(arena, current[k].typ, g.0);
      CoverViaEntry(arena, t, pkg, name, depth, current[k], seen0, next, g, i);
    } else {
      var s :| |s| < depth && Reach(arena, t, s).Some? && Reach(arena, t, s).value.0 == g.0;
      ShorterStep(arena, t, s, i, g);
    }
  }

  /** The step below a type identical to a settled entry lands on a consolidated entry or a shallower type. */
  lemma CoverViaEntry(arena: Arena, t: Handle, pkg: Option<Package>, name: string, depth: nat,
                      e: EmbeddedType, seen0: set<Handle>, next: seq<EmbeddedType>, g: (Handle, bool), i: nat)
    requires Ident(arena, e.typ, g.0) && Settled(arena, e, seen0, next, pkg, name)
    requires seen0 <= NamedSet(arena) && forall n :: n in seen0 ==> ShorterReach(arena, t, depth, n)
    requires Step(arena, g.0, g.1, i).Some?
    ensures (exists k :: 0 <= k < |Consolidated(arena, next)|
               && Ident(arena, Consolidated(arena, next)[k].typ, Step(arena, g.0, g.1, i).value.0))
            || ShorterReach(arena, t, depth + 1, Step(arena, g.0, g.1, i).value.0)
  {
    StepIdent(arena, e.typ, g.0, e.indirect, g.1, i);
    if e.typ in seen0 {
      assert e.typ in NamedSet(arena);
      var s :| |s| < depth && Reach(arena, t, s).Some? && Reach(arena, t, s).value.0 == e.typ;
      ShorterStep(arena, t, s, i, g);
    } else {
      assert Child(arena, e, i) in next;
      var m :| 0 <= m < |next| && next[m] == Child(arena, e, i);
      ConsolidatedCovers(arena, next, m);
    }
  }

  lemma ShorterStep(arena: Arena, t: Handle, s: seq<nat>, i: nat, g: (Handle, bool))
    requires Reach(arena, t, s).Some? && Reach(arena, t, s).value.0 == g.0
    requires Step(arena, g.0, g.1, i).Some?
    ensures Reach(arena, t, s + [i]).Some? && Reach(arena, t, s + [i]).value.0 == Step(arena, g.0, g.1, i).value.0
  {
    ReachSnoc(arena, t, s, i);
    StepIdent(arena, g.0, g.0, Reach(arena, t, s).value.1, g.1, i);
  }

  /** No type reached along exactly depth fields matches, when the depth had no match. */
  lemma NoMatchAtDepth(arena: Arena, t: Handle, pkg: Option<Package>, name: string, depth: nat,
                       current: seq<EmbeddedType>, seen0: set<Handle>, next: seq<EmbeddedType>, p: seq<nat>)
    requires DepthInv(arena, t, depth, current, seen0, pkg, name)
    requires forall k' :: 0 <= k' < |current| ==> Settled(arena, current[k'], seen0, next, pkg, name)
    requires |p| == depth && Reach(arena, t, p).Some?
    ensures !Match(arena, Reach(arena, t, p).value.0, pkg, name)
  {
    var g := Reach(arena, t, p).value.0;
    if exists k :: 0 <= k < |current| && Ident(arena, current[k].typ, g) {
      var k :| 0 <= k < |current| && Ident(arena, current[k].typ, g);
      var e := current[k];
      if e.typ in seen0 {
        assert e.typ in NamedSet(arena);
        var s :| |s| < depth && Reach(arena, t, s).Some? && Reach(arena, t, s).value.0 == e.typ;
      } else {
        IdentSameMatch(arena, e.typ, g, pkg, name);
      }
    } else {
      var s :| |s| < depth && Reach(arena, t, s).Some? && Reach(arena, t, s).value.0 == g;
    }
  }
}
