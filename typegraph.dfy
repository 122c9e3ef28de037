/**
 * The types a field or method lookup walks through, as an arena of nodes
 * addressed by handles. Named types are taken as already resolved: the
 * underlying type of a named type is a handle of a node that is not itself
 * named. A path of embedded-field indices leads from one type to the type
 * of an embedded field, possibly through pointers.
 */
module TypeGraph {
  import opened TypeObjects

  type Handle = nat

  datatype TypeNode =
    | Invalid
    | Basic(kind: string)
    | Pointer(base: Handle)
    | Struct(fields: seq<Var>)
    | Interface(methods: seq<Func>)
    /** A type parameter together with the methods of its constraint's type set. */
    | TypeParam(bound: seq<Func>)
    | Named(typeName: string, methods: seq<Func>, underlying: Handle)

  type Arena = seq<TypeNode>

  /** The node of a handle; a handle outside the arena denotes the invalid type. */
  function NodeOf(arena: Arena, h: Handle): TypeNode
  {
    if h < |arena| then arena[h] else Invalid
  }

  /** deref: the base of a pointer type, and whether there was a pointer. */
  function Deref(arena: Arena, h: Handle): Handle
  {
    if NodeOf(arena, h).Pointer? then NodeOf(arena, h).base else h
  }

  predicate IsPtr(arena: Arena, h: Handle)
  {
    NodeOf(arena, h).Pointer?
  }

  /** The underlying type: one step from a named type, the type itself otherwise. */
  function Under(arena: Arena, h: Handle): Handle
  {
    if NodeOf(arena, h).Named? then NodeOf(arena, h).underlying else h
  }

  /**
   * Type identity as far as lookups need it: a named type is identical only
   * to itself, and two unnamed types are identical when their nodes are.
   */
  predicate Ident(arena: Arena, a: Handle, b: Handle)
  {
    a == b || (!NodeOf(arena, a).Named? && !NodeOf(arena, b).Named? && NodeOf(arena, a) == NodeOf(arena, b))
  }

  /**
   * The arena is well-formed: every handle it holds is in range, named types
   * are resolved to unnamed underlying types, an embedded field is a type
   * name T or *T (never a struct literal, so not an alias of one), and
   * interface methods never have a pointer receiver.
   */
  predicate WF(arena: Arena)
  {
    forall h :: 0 <= h < |arena| ==> WFAt(arena, h)
  }

  /** The node at h is well-formed (a separate predicate, so that each use of WF names the node it needs). */
  predicate WFAt(arena: Arena, h: Handle)
    requires h < |arena|
  {
    NodeWF(arena, arena[h])
  }

  predicate NodeWF(arena: Arena, n: TypeNode)
  {
    match n
    case Invalid => true
    case Basic(_) => true
    case Pointer(b) => b < |arena|
    case Struct(fs) =>
      forall i :: 0 <= i < |fs| ==>
        fs[i].typ < |arena| && (fs[i].embedded ==> !NodeOf(arena, Deref(arena, fs[i].typ)).Struct?)
    case Interface(ms) => forall i :: 0 <= i < |ms| ==> !ms[i].ptrRecv
    case TypeParam(ms) => forall i :: 0 <= i < |ms| ==> !ms[i].ptrRecv
    case Named(_, _, u) => u < |arena| && !arena[u].Named?
  }

  /** The fields of h when h is a struct or a named type whose underlying type is one. */
  function StructOf(arena: Arena, h: Handle): Option<seq<Var>>
  {
    var u := NodeOf(arena, Under(arena, h));
    if u.Struct? then Some(u.fields) else None
  }

  /** One step down embedded field i, accumulating whether a pointer was passed. */
  function Step(arena: Arena, h: Handle, ind: bool, i: nat): Option<(Handle, bool)>
  {
    match StructOf(arena, h)
    case None => None
    case Some(fs) =>
      if i < |fs| && fs[i].embedded then Some((Deref(arena, fs[i].typ), ind || IsPtr(arena, fs[i].typ)))
      else None
  }

  /** Follow a path of embedded-field indices; None if some index is not an embedded field. */
  function WalkFrom(arena: Arena, h: Handle, ind: bool, path: seq<nat>): Option<(Handle, bool)>
    decreases |path|
  {
    if path == [] then Some((h, ind))
    else
      match Step(arena, h, ind, path[0])
      case None => None
      case Some(next) => WalkFrom(arena, next.0, next.1, path[1..])
  }

  /** The type reached from T along a path, starting below one pointer of T. */
  function Reach(arena: Arena, t: Handle, path: seq<nat>): Option<(Handle, bool)>
  {
    WalkFrom(arena, Deref(arena, t), IsPtr(arena, t), path)
  }

  /**
   * The index of the first method from k on with the given package and
   * name, or -1.
   */
  function MethodIndexFrom(methods: seq<Func>, pkg: Option<Package>, name: string, k: nat): (i: int)
    requires k <= |methods|
    ensures i == -1 || k <= i < |methods|
    ensures i >= 0 ==> FuncSameId(methods[i], pkg, name)
                       && forall j :: k <= j < i ==> !FuncSameId(methods[j], pkg, name)
    ensures i == -1 <==> forall j :: k <= j < |methods| ==> !FuncSameId(methods[j], pkg, name)
    decreases |methods| - k
  {
    if k == |methods| then -1
    else if FuncSameId(methods[k], pkg, name) then k
    else MethodIndexFrom(methods, pkg, name, k + 1)
  }

  /** What lookupMethod finds: the first method with the given identity; never the blank name. */
  function MethodIndex(methods: seq<Func>, pkg: Option<Package>, name: string): (i: int)
    ensures -1 <= i < |methods|
    ensures i >= 0 ==> name != "_" && FuncSameId(methods[i], pkg, name)
                       && forall j :: 0 <= j < i ==> !FuncSameId(methods[j], pkg, name)
    ensures i == -1 <==> name == "_" || forall j :: 0 <= j < |methods| ==> !FuncSameId(methods[j], pkg, name)
  {
    if name == "_" then -1 else MethodIndexFrom(methods, pkg, name, 0)
  }

  /**
   * The entry with index i that the type h offers for (pkg, name): the
   * first declared method of a named type with that identity, if there is
   * one; otherwise a field of its struct, or the first method of its
   * interface or (for a type parameter that is not the underlying type of a
   * named type) of its constraint. Every matching field is offered, since
   * the struct loop looks at every field.
   */
  function Selected(arena: Arena, h: Handle, i: nat, pkg: Option<Package>, name: string): Option<Object>
  {
    var n := NodeOf(arena, h);
    if n.Named? && MethodIndex(n.methods, pkg, name) >= 0 then
      (if i == MethodIndex(n.methods, pkg, name) then Some(MethodObj(n.methods[i])) else None)
    else if n.Named? && NodeOf(arena, n.underlying).TypeParam? then None
    else
      match NodeOf(arena, Under(arena, h))
      case Struct(fs) => if i < |fs| && VarSameId(fs[i], pkg, name) then Some(FieldObj(fs[i])) else None
      case Interface(ms) => if i == MethodIndex(ms, pkg, name) then Some(MethodObj(ms[i])) else None
      case TypeParam(ms) => if i == MethodIndex(ms, pkg, name) then Some(MethodObj(ms[i])) else None
      case _ => None
  }

  /** h itself (not its embedded fields) has an entry for (pkg, name). */
  ghost predicate Match(arena: Arena, h: Handle, pkg: Option<Package>, name: string)
  {
    exists i: nat :: Selected(arena, h, i, pkg, name).Some?
  }

  /** The object an index path from T denotes: the last index selects in the type the others lead to. */
  function SelectedAlong(arena: Arena, t: Handle, index: seq<nat>, pkg: Option<Package>, name: string): Option<Object>
  {
    if index == [] then None
    else
      match Reach(arena, t, index[..|index| - 1])
      case None => None
      case Some(hi) => Selected(arena, hi.0, index[|index| - 1], pkg, name)
  }

  /** No type reachable from T along fewer than d embedded fields has an entry for (pkg, name). */
  ghost predicate NoMatchAbove(arena: Arena, t: Handle, d: nat, pkg: Option<Package>, name: string)
  {
    forall p: seq<nat> :: |p| < d && Reach(arena, t, p).Some? ==> !Match(arena, Reach(arena, t, p).value.0, pkg, name)
  }

  /** No type reachable from T at any depth has an entry for (pkg, name). */
  ghost predicate NoMatchAnywhere(arena: Arena, t: Handle, pkg: Option<Package>, name: string)
  {
    forall p: seq<nat> :: Reach(arena, t, p).Some? ==> !Match(arena, Reach(arena, t, p).value.0, pkg, name)
  }

  /** p is the only path of its length along which an entry for (pkg, name) is selected. */
  ghost predicate OnlySelection(arena: Arena, t: Handle, p: seq<nat>, pkg: Option<Package>, name: string)
  {
    SelectedAlong(arena, t, p, pkg, name).Some?
    && forall q: seq<nat> :: |q| == |p| && SelectedAlong(arena, t, q, pkg, name).Some? ==> q == p
  }

  /** Some path other than p, of the same length, also selects an entry for (pkg, name). */
  ghost predicate OtherSelection(arena: Arena, t: Handle, p: seq<nat>, pkg: Option<Package>, name: string)
  {
    exists q: seq<nat> :: |q| == |p| && q != p && SelectedAlong(arena, t, q, pkg, name).Some?
  }

  /** The type h offers at most the entry with index i. */
  ghost predicate OnlyAt(arena: Arena, h: Handle, i: nat, pkg: Option<Package>, name: string)
  {
    forall j: nat :: Selected(arena, h, j, pkg, name).Some? ==> j == i
  }

  // ---------------------------------------------------------------------
  // Facts about walks.

  /** Walking p then q is walking p + q. */
  lemma {:induction false} WalkConcat(arena: Arena, h: Handle, ind: bool, p: seq<nat>, q: seq<nat>)
    ensures WalkFrom(arena, h, ind, p + q)
            == (match WalkFrom(arena, h, ind, p)
                case None => None
                case Some(g) => WalkFrom(arena, g.0, g.1, q))
    decreases |p|
  {
    if p == [] {
      assert p + q == q;
    } else {
      assert (p + q)[0] == p[0];
      assert (p + q)[1..] == p[1..] + q;
      match Step(arena, h, ind, p[0])
      case None =>
      case Some(next) => WalkConcat(arena, next.0, next.1, p[1..], q);
    }
  }

  /** Where a walk ends does not depend on the pointer flag it starts with. */
  /** Once a pointer is on the path, every type further down is reached through one. */
  lemma {:induction false} WalkKeepsIndirect(arena: Arena, h: Handle, path: seq<nat>)
    ensures WalkFrom(arena, h, true, path).Some? ==> WalkFrom(arena, h, true, path).value.1
    decreases |path|
  {
    if path != [] {
      match Step(arena, h, true, path[0])
      case None =>
      case Some(next) =>
        WalkKeepsIndirect(arena, next.0, path[1..]);
    }
  }

  lemma ReachFromPointer(arena: Arena, t: Handle, path: seq<nat>)
    ensures IsPtr(arena, t) && Reach(arena, t, path).Some? ==> Reach(arena, t, path).value.1
  {
    WalkKeepsIndirect(arena, Deref(arena, t), path);
  }

  lemma {:induction false} WalkTargetIndependent(arena: Arena, h: Handle, i1: bool, i2: bool, p: seq<nat>)
    ensures WalkFrom(arena, h, i1, p).Some? == WalkFrom(arena, h, i2, p).Some?
    ensures WalkFrom(arena, h, i1, p).Some? ==> WalkFrom(arena, h, i1, p).value.0 == WalkFrom(arena, h, i2, p).value.0
    decreases |p|
  {
    if p != [] {
      match Step(arena, h, i1, p[0])
      case None =>
      case Some(n1) =>
        var n2 := Step(arena, h, i2, p[0]).value;
        WalkTargetIndependent(arena, n1.0, n1.1, n2.1, p[1..]);
    }
  }

  /** Identical types lead to the same places along any non-empty path, and offer the same entries. */
  lemma IdentSameWalk(arena: Arena, a: Handle, b: Handle, ind: bool, p: seq<nat>)
    requires Ident(arena, a, b) && p != []
    ensures WalkFrom(arena, a, ind, p) == WalkFrom(arena, b, ind, p)
  {
    if p != [] {
      assert (Under(arena, a) == a && Under(arena, b) == b) || a == b;
      assert StructOf(arena, a) == StructOf(arena, b);
      var st := Step(arena, a, ind, p[0]);
      assert st == Step(arena, b, ind, p[0]);
      if st.Some? {
        assert WalkFrom(arena, a, ind, p) == WalkFrom(arena, st.value.0, st.value.1, p[1..]);
        assert WalkFrom(arena, b, ind, p) == WalkFrom(arena, st.value.0, st.value.1, p[1..]);
      } else {
        assert WalkFrom(arena, a, ind, p) == None;
        assert WalkFrom(arena, b, ind, p) == None;
      }
    }
  }

  lemma IdentSameMatch(arena: Arena, a: Handle, b: Handle, pkg: Option<Package>, name: string)
    requires Ident(arena, a, b)
    ensures Match(arena, a, pkg, name) == Match(arena, b, pkg, name)
  {
    forall i: nat ensures Selected(arena, a, i, pkg, name) == Selected(arena, b, i, pkg, name) {
      IdentSameSelected(arena, a, b, i, pkg, name);
    }
  }

  /** Identical types select the same entry at every index. */
  lemma IdentSameSelected(arena: Arena, a: Handle, b: Handle, i: nat, pkg: Option<Package>, name: string)
    requires Ident(arena, a, b)
    ensures Selected(arena, a, i, pkg, name) == Selected(arena, b, i, pkg, name)
  {
  }

  /** Extending a path by one index takes one more step from where the path ends. */
  lemma ReachSnoc(arena: Arena, t: Handle, p: seq<nat>, i: nat)
    ensures Reach(arena, t, p + [i])
            == (match Reach(arena, t, p)
                case None => None
                case Some(g) => Step(arena, g.0, g.1, i))
  {
    WalkConcat(arena, Deref(arena, t), IsPtr(arena, t), p, [i]);
    match Reach(arena, t, p)
    case None =>
    case Some(g) =>
      assert WalkFrom(arena, g.0, g.1, [i]) == Step(arena, g.0, g.1, i) by {
        match Step(arena, g.0, g.1, i)
        case None =>
        case Some(n) => assert [i][1..] == [];
      }
  }

  /**
   * If every path of length d that can be walked ends on a type that some
   * strictly shorter path also reaches, then every type reachable at all is
   * reachable along fewer than d fields.
   */
  lemma {:induction false} ShortcutAll(arena: Arena, t: Handle, d: nat, p: seq<nat>)
    requires forall q: seq<nat> :: |q| == d && Reach(arena, t, q).Some? ==>
               exists s: seq<nat> :: |s| < d && Reach(arena, t, s).Some? && Reach(arena, t, s).value.0 == Reach(arena, t, q).value.0
    requires Reach(arena, t, p).Some?
    ensures exists s: seq<nat> :: |s| < d && Reach(arena, t, s).Some? && Reach(arena, t, s).value.0 == Reach(arena, t, p).value.0
    decreases |p|
  {
    if |p| >= d {
      var q, rest := p[..d], p[d..];
      assert p == q + rest;
      var start, ind0 := Deref(arena, t), IsPtr(arena, t);
      WalkConcat(arena, start, ind0, q, rest);
      assert Reach(arena, t, q).Some?;
      var s :| |s| < d && Reach(arena, t, s).Some? && Reach(arena, t, s).value.0 == Reach(arena, t, q).value.0;
      var gq := Reach(arena, t, q).value;
      var gs := Reach(arena, t, s).value;
      WalkConcat(arena, start, ind0, s, rest);
      WalkTargetIndependent(arena, gq.0, gq.1, gs.1, rest);
      assert Reach(arena, t, s + rest).Some? && Reach(arena, t, s + rest).value.0 == Reach(arena, t, p).value.0;
      ShortcutAll(arena, t, d, s + rest);
    } else {
      assert Reach(arena, t, p).value.0 == Reach(arena, t, p).value.0;
    }
  }

  /** Hence no match above depth d and nothing new at depth d means no match anywhere. */
  lemma NoMatchAnywhereFrom(arena: Arena, t: Handle, d: nat, pkg: Option<Package>, name: string)
    requires NoMatchAbove(arena, t, d, pkg, name)
    requires forall q: seq<nat> :: |q| == d && Reach(arena, t, q).Some? ==>
               exists s: seq<nat> :: |s| < d && Reach(arena, t, s).Some? && Reach(arena, t, s).value.0 == Reach(arena, t, q).value.0
    ensures NoMatchAnywhere(arena, t, pkg, name)
  {
    forall p: seq<nat> | Reach(arena, t, p).Some?
      ensures !Match(arena, Reach(arena, t, p).value.0, pkg, name)
    {
      ShortcutAll(arena, t, d, p);
    }
  }
}
