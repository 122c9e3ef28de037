/**
 * Named (defined) types of go/types: their lazily resolved state, the
 * constructors and setters that guard it, and `under`, which follows a
 * chain of named types to its first non-named underlying type, reports a
 * cycle when the chain closes on itself and then writes the result into
 * every member of the chain.
 *
 * A `*Named` is a handle into the `named` arena of a `Universe`, a `*Func`
 * a handle into its `funcs` arena; both arenas are updated in place, so
 * aliasing between a method list and the function it names is kept.
 */
module NamedTypes {
  import opened TypeObjects
  import Lookup
  import TypeGraph

  type NamedId = nat
  type FuncId = nat

  /**
   * A type as the named-type machinery tells them apart: nil, a `*Named`,
   * Typ[Invalid], or any other (non-named) type, identified by a code.
   */
  datatype Type = NilType | NamedType(id: NamedId) | Invalid | Other(code: nat)

  /** A type name object; `id` stands for its pointer identity. */
  datatype TypeName = TypeName(id: nat, pkg: Option<Package>, name: string)

  /** A signature, reduced to the number of receiver type parameters and the receiver type. */
  datatype Signature = Signature(recvTParams: nat, recv: Type)

  /**
   * The state of a `*Func` that the named-type code reads or writes: what
   * lookups see, the instance receiver still to be completed, its type
   * (nil until type-checked) and whether it is coloured black.
   */
  datatype FuncState = FuncState(f: Func, instRecv: Option<NamedId>, typ: Option<Signature>, black: bool)

  /** What a resolver returns: type parameters (their number), underlying type and methods. */
  datatype Resolution = Resolution(tparams: nat, underlying: Type, methods: seq<FuncId>)

  /**
   * The fields of a Named. Type parameter and type argument lists are
   * represented by their lengths (a nil list has length 0); `check` says
   * whether the type still has its checker; the resolver is the triple it
   * returns, and `resolved` records that the run-once resolution has run.
   */
  datatype NamedState = NamedState(
    obj: TypeName,
    orig: NamedId,
    fromRHS: Type,
    underlying: Type,
    tparams: nat,
    targs: nat,
    methods: seq<FuncId>,
    resolver: Option<Resolution>,
    resolved: bool,
    check: bool)

  /** A function handed to check.later by this code. */
  datatype LaterTask = UnderCheck(n: NamedId) | CompleteMethods(ms: seq<FuncId>)

  /** A result, or a Go panic. */
  datatype Outcome<T> = Ok(value: T) | Panic(reason: Reason)

  /** Why the code panics; Message gives the text it panics with. */
  datatype Reason =
    | UnderlyingIsNamed
    | UnderlyingIsNil
    | IncompleteWithoutChecker
    | ImportedUnresolved
    | AssertionFailed
    | SignatureMissing

  function Message(r: Reason): string
  {
    match r
    case UnderlyingIsNamed => "underlying type must not be *Named"
    case UnderlyingIsNil => "underlying type must not be nil"
    case IncompleteWithoutChecker => "Named.check == nil but type is incomplete"
    case ImportedUnresolved => "imported type with unresolved underlying type"
    case AssertionFailed => "assertion failed"
    case SignatureMissing => "interface conversion: types.Type is nil, not *types.Signature"
  }

  // ---------------------------------------------------------------------
  // Resolution, as a function of one Named's state.

  /**
   * The state after resolve: a pending resolver runs once, installing
   * its type parameters, underlying type and methods and recording the
   * underlying type as fromRHS; otherwise nothing changes.
   */
  function Resolved(d: NamedState): (r: NamedState)
    ensures r == d <==> d.resolver.None? || d.resolved
    ensures r.obj == d.obj && r.orig == d.orig && r.targs == d.targs && r.check == d.check
    ensures r.resolver == d.resolver && (r.resolver.Some? ==> r.resolved)
    ensures d.resolver.Some? && !d.resolved ==>
              r.tparams == d.resolver.value.tparams && r.underlying == d.resolver.value.underlying
              && r.methods == d.resolver.value.methods && r.fromRHS == r.underlying
  {
    if d.resolver.None? || d.resolved then d
    else
      var res := d.resolver.value;
      d.(tparams := res.tparams, underlying := res.underlying, methods := res.methods,
         fromRHS := res.underlying, resolved := true)
  }

  /** Resolving is idempotent: the resolver runs at most once per Named. */
  lemma ResolvedIdempotent(d: NamedState)
    ensures Resolved(Resolved(d)) == Resolved(d)
  {
    assert Resolved(d).resolver.Some? ==> Resolved(d).resolved;
  }

  /** The underlying type of n as it reads after resolve. */
  function UnderlyingOf(named: seq<NamedState>, n: NamedId): (t: Type)
    requires n < |named|
    ensures t == Resolved(named[n]).underlying
  {
    var d := named[n];
    if d.resolver.Some? && !d.resolved then d.resolver.value.underlying else d.underlying
  }

  /** Resolve every Named in s. */
  function ResolveAll(named: seq<NamedState>, s: set<NamedId>): (r: seq<NamedState>)
    ensures |r| == |named|
    ensures forall k :: 0 <= k < |r| ==> r[k] == if k in s then Resolved(named[k]) else named[k]
  {
    seq(|named|, k requires 0 <= k < |named| => if k in s then Resolved(named[k]) else named[k])
  }

  /** Set the underlying type of every Named in s to u. */
  function Settle(named: seq<NamedState>, s: set<NamedId>, u: Type): (r: seq<NamedState>)
    ensures |r| == |named|
    ensures forall k :: 0 <= k < |r| ==> r[k] == if k in s then named[k].(underlying := u) else named[k]
  {
    seq(|named|, k requires 0 <= k < |named| => if k in s then named[k].(underlying := u) else named[k])
  }

  /** Resolving some Named does not change what any underlying type reads as. */
  lemma ResolveAllKeepsUnderlying(named: seq<NamedState>, s: set<NamedId>, n: NamedId)
    requires n < |named|
    ensures UnderlyingOf(ResolveAll(named, s), n) == UnderlyingOf(named, n)
  {
    ResolvedIdempotent(named[n]);
  }

  // ---------------------------------------------------------------------
  // The chain that under follows.

  /** The first m members of a chain. */
  function Prefix(chain: seq<NamedId>, m: nat): set<NamedId>
    requires m <= |chain|
  {
    set k | 0 <= k < m :: chain[k]
  }

  /** All members of a chain. */
  function Members(chain: seq<NamedId>): set<NamedId>
  {
    Prefix(chain, |chain|)
  }

  /**
   * chain is the chain of named types from chain[0]: each member's
   * underlying type is the next member, no member repeats, and the last
   * member's underlying type is either not a Named or a Named already in
   * the chain (a cycle).
   */
  ghost predicate IsChain(named: seq<NamedState>, chain: seq<NamedId>)
  {
    ChainShape(named, chain)
    && var u := UnderlyingOf(named, chain[|chain| - 1]);
       u.NamedType? ==> u.id in chain
  }

  /**
   * A non-empty run of distinct Named types (as many members as
   * positions), each followed by its underlying type.
   */
  ghost predicate ChainShape(named: seq<NamedState>, chain: seq<NamedId>)
  {
    |chain| >= 1
    && (forall k :: 0 <= k < |chain| ==> chain[k] < |named|)
    && |Members(chain)| == |chain|
    && (forall k :: 0 <= k < |chain| - 1 ==> Link(named, chain, k))
  }

  /**
   * The member at k is followed by its underlying type (a separate
   * predicate, so that each use names the link it needs).
   */
  ghost predicate Link(named: seq<NamedState>, chain: seq<NamedId>, k: nat)
  {
    k + 1 < |chain| && chain[k] < |named| && UnderlyingOf(named, chain[k]) == NamedType(chain[k + 1])
  }

  /** The chain closes on itself. */
  ghost predicate Cyclic(named: seq<NamedState>, chain: seq<NamedId>)
    requires IsChain(named, chain)
  {
    UnderlyingOf(named, chain[|chain| - 1]).NamedType?
  }

  /**
   * What under returns for the chain: Typ[Invalid] for a cycle or a nil
   * underlying type, else the non-named type that ends the chain. It is
   * never a Named and never nil.
   */
  ghost function ChainResult(named: seq<NamedState>, chain: seq<NamedId>): (r: Type)
    requires IsChain(named, chain)
    ensures !r.NamedType? && !r.NilType?
    ensures Cyclic(named, chain) ==> r == Invalid
    ensures !Cyclic(named, chain) ==> r == (var u := UnderlyingOf(named, chain[|chain| - 1]); if u.NilType? then Invalid else u)
  {
    var u := UnderlyingOf(named, chain[|chain| - 1]);
    if u.NamedType? || u.NilType? then Invalid else u
  }

  /** The objects of the chain's members: the path under reports cycles on. */
  function Objs(named: seq<NamedState>, chain: seq<NamedId>): (r: seq<TypeName>)
    requires forall k :: 0 <= k < |chain| ==> chain[k] < |named|
    ensures |r| == |chain| && forall k :: 0 <= k < |chain| ==> r[k] == named[chain[k]].obj
  {
    seq(|chain|, k requires 0 <= k < |chain| => named[chain[k]].obj)
  }

  /**
   * The cycle under reports: for a cyclic chain, the objects from the
   * first repeated member to the end; nothing otherwise.
   */
  ghost function CycleReport(named: seq<NamedState>, chain: seq<NamedId>): (r: seq<seq<TypeName>>)
    requires IsChain(named, chain)
    ensures |r| == (if Cyclic(named, chain) then 1 else 0)
  {
    var u := UnderlyingOf(named, chain[|chain| - 1]);
    if u.NamedType? then [Objs(named, chain[IndexOf(chain, u.id)..])] else []
  }

  /** The position of x in s. */
  function IndexOf(s: seq<NamedId>, x: NamedId): (i: nat)
    requires x in s
    ensures i < |s| && s[i] == x && x !in s[..i]
  {
    if s[0] == x then 0
    else
      assert x in s[1..];
      var j := IndexOf(s[1..], x);
      assert s[..j + 1] == [s[0]] + s[1..][..j];
      j + 1
  }

  /**
   * The members under writes: all of them for a cycle, all but the last
   * (whose underlying type already is not a Named) otherwise.
   */
  ghost function Written(named: seq<NamedState>, chain: seq<NamedId>): (r: set<NamedId>)
    requires IsChain(named, chain)
    ensures forall k :: k in r ==> k in chain
    ensures forall k :: 0 <= k < |chain| - 1 ==> chain[k] in r
    ensures chain[|chain| - 1] in r <==> Cyclic(named, chain)
  {
    if Cyclic(named, chain) then Members(chain)
    else
      LastNotBefore(chain);
      Prefix(chain, |chain| - 1)
  }

  /** In a chain, the last member does not occur before the end. */
  lemma {:induction false} LastNotBefore(chain: seq<NamedId>)
    requires |chain| >= 1 && |Members(chain)| == |chain|
    ensures chain[|chain| - 1] !in Prefix(chain, |chain| - 1)
  {
    forall k | 0 <= k < |chain| - 1
      ensures chain[k] != chain[|chain| - 1]
    {
      DistinctAt(chain, k, |chain| - 1);
    }
  }

  /** From a given start there is only one chain. */
  lemma {:induction false} ChainUnique(named: seq<NamedState>, c1: seq<NamedId>, c2: seq<NamedId>)
    requires IsChain(named, c1) && IsChain(named, c2) && c1[0] == c2[0]
    ensures c1 == c2
  {
    var k := 0;
    while k + 1 < |c1| && k + 1 < |c2|
      invariant 0 <= k < |c1| && k < |c2| && forall j :: 0 <= j <= k ==> c1[j] == c2[j]
    {
      assert Link(named, c1, k) && Link(named, c2, k);
      k := k + 1;
    }
    if |c1| <= |c2| {
      ChainPrefixEnds(named, c1, c2, k);
    } else {
      ChainPrefixEnds(named, c2, c1, k);
    }
  }

  /** Two chains that agree up to the end of one of them have the same length. */
  lemma {:induction false} ChainPrefixEnds(named: seq<NamedState>, short: seq<NamedId>, long: seq<NamedId>, k: nat)
    requires IsChain(named, short) && IsChain(named, long)
    requires k + 1 == |short| <= |long| && forall j :: 0 <= j <= k ==> short[j] == long[j]
    ensures |short| == |long|
  {
    if |short| < |long| {
      assert Link(named, long, k);
      var i :| 0 <= i < |short| && short[i] == long[k + 1];
      DistinctAt(long, i, k + 1);
      assert false;
    }
  }

  /**
   * After the write, every member under wrote reads as the chain's result,
   * which is not a Named: a second under on any of them returns the same
   * type at once.
   */
  lemma {:induction false} SettledChain(named: seq<NamedState>, chain: seq<NamedId>)
    requires IsChain(named, chain)
    ensures var s := Settle(ResolveAll(named, Members(chain)), Written(named, chain), ChainResult(named, chain));
            forall k :: k in Written(named, chain) ==>
              k < |s| && UnderlyingOf(s, k) == ChainResult(named, chain) && IsChain(s, [k])
  {
    var r := ChainResult(named, chain);
    var s := Settle(ResolveAll(named, Members(chain)), Written(named, chain), r);
    forall k | k in Written(named, chain)
      ensures k < |s| && UnderlyingOf(s, k) == r && IsChain(s, [k])
    {
      ResolvedIdempotent(named[k]);
      assert Resolved(named[k]).resolver.Some? ==> Resolved(named[k]).resolved;
      MembersSingle(k);
    }
  }

  /** seen maps each of the first m members of chain to its position, and holds nothing else. */
  ghost predicate SeenIndex(seen: map<NamedId, nat>, chain: seq<NamedId>, m: nat)
  {
    m <= |chain|
    && (forall k :: 0 <= k < m ==> chain[k] in seen && seen[chain[k]] == k)
    && (forall x :: x in seen ==> seen[x] < m && chain[seen[x]] == x)
  }

  /** path holds the objects of the first |path| members of chain. */
  ghost predicate PathObjs(pre: seq<NamedState>, path: seq<TypeName>, chain: seq<NamedId>)
  {
    |path| <= |chain| && forall k :: 0 <= k < |path| ==> chain[k] < |pre| && path[k] == pre[chain[k]].obj
  }

  /**
   * The state at the head of under's loop: chain ends at n, whose
   * underlying type is the Named next; seen maps the members before n to
   * their positions, and path holds their objects.
   */
  ghost predicate WalkInv(pre: seq<NamedState>, seen: map<NamedId, nat>, path: seq<TypeName>,
                          chain: seq<NamedId>, n: NamedId, next: NamedId)
  {
    |chain| == |seen| + 1 && |path| == |seen| && chain[|seen|] == n && n !in seen && |seen| < |pre|
    && ChainShape(pre, chain)
    && next < |pre| && UnderlyingOf(pre, n) == NamedType(next)
    && SeenIndex(seen, chain, |seen|) && PathObjs(pre, path, chain)
  }

  /** Recording the member at position |seen| in seen. */
  lemma {:induction false} SeenRecord(seen: map<NamedId, nat>, chain: seq<NamedId>, n: NamedId)
    requires SeenIndex(seen, chain, |seen|) && |seen| < |chain| && chain[|seen|] == n && n !in seen
    ensures SeenIndex(seen[n := |seen|], chain, |seen| + 1) && |seen[n := |seen|]| == |seen| + 1
  {
  }

  /** Extending the chain keeps the positions seen records. */
  lemma {:induction false} SeenGrow(seen: map<NamedId, nat>, chain: seq<NamedId>, m: nat, x: NamedId)
    requires SeenIndex(seen, chain, m)
    ensures SeenIndex(seen, chain + [x], m)
  {
    var c := chain + [x];
    assert forall k :: 0 <= k < |chain| ==> c[k] == chain[k];
  }

  /** A map from the first m members of a chain to their positions has exactly them as keys. */
  lemma {:induction false} KeysArePrefix(seen: map<NamedId, nat>, chain: seq<NamedId>, m: nat)
    requires SeenIndex(seen, chain, m)
    ensures seen.Keys == Prefix(chain, m)
  {
  }

  /** Recording the object of the member at position |path|. */
  lemma {:induction false} PathRecord(pre: seq<NamedState>, path: seq<TypeName>, chain: seq<NamedId>, n: NamedId)
    requires PathObjs(pre, path, chain) && |path| < |chain| && chain[|path|] == n && n < |pre|
    ensures PathObjs(pre, path + [pre[n].obj], chain)
  {
    var path' := path + [pre[n].obj];
    forall k | 0 <= k < |path'|
      ensures chain[k] < |pre| && path'[k] == pre[chain[k]].obj
    {
      if k < |path| {
        assert path'[k] == path[k];
      }
    }
  }

  /** Extending the chain keeps the objects path records. */
  lemma {:induction false} PathGrow(pre: seq<NamedState>, path: seq<TypeName>, chain: seq<NamedId>, x: NamedId)
    requires PathObjs(pre, path, chain)
    ensures PathObjs(pre, path, chain + [x])
  {
    var c := chain + [x];
    assert forall k :: 0 <= k < |chain| ==> c[k] == chain[k];
  }

  /**
   * The next type is already seen, with all of the chain recorded: the
   * chain is complete and cyclic, and closes on the member at seen[next].
   */
  lemma {:induction false} CycleKeys(pre: seq<NamedState>, seen: map<NamedId, nat>, chain: seq<NamedId>, next: NamedId)
    requires ChainShape(pre, chain) && SeenIndex(seen, chain, |chain|) && next in seen
    requires UnderlyingOf(pre, chain[|chain| - 1]) == NamedType(next)
    ensures IsChain(pre, chain) && Cyclic(pre, chain)
    ensures seen[next] < |chain| && chain[seen[next]] == next
    ensures seen.Keys == Written(pre, chain)
  {
    assert chain[seen[next]] == next;
    KeysArePrefix(seen, chain, |chain|);
  }

  /** The cycle reported for a cyclic chain that closes on its member i is the path from i on. */
  lemma {:induction false} WalkCycleReport(pre: seq<NamedState>, path: seq<TypeName>, chain: seq<NamedId>, i: nat)
    requires IsChain(pre, chain) && i < |chain| && UnderlyingOf(pre, chain[|chain| - 1]) == NamedType(chain[i])
    requires |path| == |chain| && PathObjs(pre, path, chain)
    ensures CycleReport(pre, chain) == [path[i..]]
  {
    var j := IndexOf(chain, chain[i]);
    if j < i {
      DistinctAt(chain, j, i);
    }
    PathSuffix(pre, path, chain, i);
  }

  /** A path that lists the objects of a chain lists those of each suffix from the same point on. */
  lemma {:induction false} PathSuffix(pre: seq<NamedState>, path: seq<TypeName>, chain: seq<NamedId>, i: nat)
    requires |path| == |chain| && i <= |chain| && PathObjs(pre, path, chain)
    ensures path[i..] == Objs(pre, chain[i..])
  {
    var o := Objs(pre, chain[i..]);
    forall k | 0 <= k < |chain| - i
      ensures path[i..][k] == o[k]
    {
      assert chain[i..][k] == chain[i + k];
    }
  }

  /**
   * The next type is not seen yet, with all of the chain recorded: next
   * extends the chain, and there is room for it.
   */
  lemma {:induction false} WalkExtend(pre: seq<NamedState>, seen: map<NamedId, nat>, chain: seq<NamedId>, next: NamedId)
    requires ChainShape(pre, chain) && SeenIndex(seen, chain, |chain|) && next !in seen && next < |pre|
    requires UnderlyingOf(pre, chain[|chain| - 1]) == NamedType(next)
    ensures next !in Members(chain) && Members(chain + [next]) == Members(chain) + {next}
    ensures ChainShape(pre, chain + [next]) && |seen| + 1 <= |pre|
    ensures seen.Keys == Members(chain)
  {
    KeysArePrefix(seen, chain, |chain|);
    RangeCard(seen.Keys + {next}, |pre|);
    MembersSnoc(chain, next);
    ShapeSnoc(pre, chain, next);
  }

  /** A chain that ends at a non-named underlying type is complete; all but its last member are written. */
  lemma {:induction false} WalkEnd(pre: seq<NamedState>, chain: seq<NamedId>, next: NamedId)
    requires ChainShape(pre, chain + [next]) && next < |pre| && !UnderlyingOf(pre, next).NamedType?
    ensures IsChain(pre, chain + [next]) && !Cyclic(pre, chain + [next])
    ensures Members(chain) == Written(pre, chain + [next])
  {
    var chain' := chain + [next];
    assert Prefix(chain', |chain|) == Prefix(chain, |chain|) by {
      forall k | 0 <= k < |chain|
        ensures chain'[k] == chain[k]
      {
      }
    }
  }

  /** The loop's state after recording n and stepping to next, whose underlying type is the Named after. */
  lemma {:induction false} WalkInvSnoc(pre: seq<NamedState>, seen: map<NamedId, nat>, path: seq<TypeName>,
                                       chain: seq<NamedId>, next: NamedId, after: NamedId)
    requires SeenIndex(seen, chain, |chain|) && PathObjs(pre, path, chain) && |path| == |seen| == |chain|
    requires next !in seen && ChainShape(pre, chain + [next]) && |seen| + 1 <= |pre|
    requires next < |pre| && after < |pre| && UnderlyingOf(pre, next) == NamedType(after)
    ensures WalkInv(pre, seen, path, chain + [next], next, after)
  {
    SeenGrow(seen, chain, |chain|, next);
    PathGrow(pre, path, chain, next);
  }

  /** A chain's shape extends by the underlying type of its last member, when that is new. */
  lemma {:induction false} ShapeSnoc(named: seq<NamedState>, chain: seq<NamedId>, x: NamedId)
    requires ChainShape(named, chain) && x < |named| && x !in Members(chain)
    requires UnderlyingOf(named, chain[|chain| - 1]) == NamedType(x)
    ensures ChainShape(named, chain + [x])
  {
    var c := chain + [x];
    forall k | 0 <= k < |c|
      ensures c[k] < |named|
    {
      if k < |chain| {
        assert c[k] == chain[k];
      }
    }
    MembersSnoc(chain, x);
    forall k | 0 <= k < |c| - 1
      ensures Link(named, c, k)
    {
      assert c[k] == chain[k];
      if k + 1 < |chain| {
        assert Link(named, chain, k);
        assert c[k + 1] == chain[k + 1];
      }
    }
  }

  /** A sequence has at most as many members as positions. */
  lemma {:induction false} MembersCard(s: seq<NamedId>)
    ensures |Members(s)| <= |s|
    decreases |s|
  {
    if s == [] {
      assert Members(s) == {};
    } else {
      var t := s[..|s| - 1];
      assert s == t + [s[|s| - 1]];
      MembersSnoc(t, s[|s| - 1]);
      MembersCard(t);
    }
  }

  /** In a sequence with as many members as positions, no two positions hold the same member. */
  lemma {:induction false} DistinctAt(s: seq<NamedId>, i: nat, j: nat)
    requires |Members(s)| == |s| && i < j < |s|
    ensures s[i] != s[j]
  {
    if s[i] == s[j] {
      var t := s[..j] + s[j + 1..];
      assert Members(s) == Members(t) by {
        forall x | x in Members(s)
          ensures x in Members(t)
        {
          var k :| 0 <= k < |s| && s[k] == x;
          if k < j {
            assert t[k] == x;
          } else if k == j {
            assert t[i] == x;
          } else {
            assert t[k - 1] == x;
          }
        }
        forall x | x in Members(t)
          ensures x in Members(s)
        {
          var k :| 0 <= k < |t| && t[k] == x;
          if k < j {
            assert s[k] == x;
          } else {
            assert s[k + 1] == x;
          }
        }
      }
      MembersCard(t);
      assert false;
    }
  }

  lemma MembersSingle(x: NamedId)
    ensures Members([x]) == {x}
  {
    assert [x][0] == x;
  }

  lemma {:induction false} MembersSnoc(chain: seq<NamedId>, x: NamedId)
    ensures Members(chain + [x]) == Members(chain) + {x}
  {
    var c := chain + [x];
    assert forall k :: 0 <= k < |chain| ==> c[k] == chain[k];
    assert c[|chain|] == x;
  }

  /** A set of handles below n has at most n members. */
  lemma {:induction false} RangeCard(s: set<NamedId>, n: nat)
    requires forall x :: x in s ==> x < n
    ensures |s| <= n
    decreases n
  {
    if n > 0 {
      RangeCard(s - {n - 1}, n - 1);
    } else {
      assert s == {};
    }
  }

  // ---------------------------------------------------------------------
  // Method lists.

  /** The functions the handles name. */
  function FuncsOf(funcs: seq<FuncState>, ms: seq<FuncId>): (r: seq<Func>)
    requires forall i :: 0 <= i < |ms| ==> ms[i] < |funcs|
    ensures |r| == |ms| && forall i :: 0 <= i < |ms| ==> r[i] == funcs[ms[i]].f
  {
    seq(|ms|, i requires 0 <= i < |ms| => funcs[ms[i]].f)
  }

  /**
   * No method is found by the lookup of an earlier one: lookupMethod by a
   * method's package and name finds that method itself. Blank methods are
   * never found and may repeat.
   */
  predicate NoDuplicates(fs: seq<Func>)
  {
    forall i, j :: 0 <= i < j < |fs| && fs[j].name != "_" ==> !FuncSameId(fs[i], fs[j].pkg, fs[j].name)
  }

  /** Some method of fs has the identity of f. */
  predicate HasMethod(fs: seq<Func>, f: Func)
  {
    f.name != "_" && exists i :: 0 <= i < |fs| && FuncSameId(fs[i], f.pkg, f.name)
  }

  /** AddMethod's rule: append m unless lookupMethod finds its identity already. */
  function WithMethod(funcs: seq<FuncState>, ms: seq<FuncId>, m: FuncId): (r: seq<FuncId>)
    requires m < |funcs| && forall i :: 0 <= i < |ms| ==> ms[i] < |funcs|
    ensures HasMethod(FuncsOf(funcs, ms), funcs[m].f) ==> r == ms
    ensures !HasMethod(FuncsOf(funcs, ms), funcs[m].f) ==> r == ms + [m]
  {
    if HasMethod(FuncsOf(funcs, ms), funcs[m].f) then ms else ms + [m]
  }

  /**
   * AddMethod never introduces a duplicate, and afterwards m's identity is
   * always found (unless it is blank).
   */
  lemma WithMethodKeepsUnique(funcs: seq<FuncState>, ms: seq<FuncId>, m: FuncId)
    requires m < |funcs| && forall i :: 0 <= i < |ms| ==> ms[i] < |funcs|
    requires NoDuplicates(FuncsOf(funcs, ms))
    ensures NoDuplicates(FuncsOf(funcs, WithMethod(funcs, ms, m)))
    ensures funcs[m].f.name != "_" ==> HasMethod(FuncsOf(funcs, WithMethod(funcs, ms, m)), funcs[m].f)
  {
    var fs := FuncsOf(funcs, ms);
    var r := WithMethod(funcs, ms, m);
    var fr := FuncsOf(funcs, r);
    if !HasMethod(fs, funcs[m].f) {
      assert fr == fs + [funcs[m].f];
      if funcs[m].f.name != "_" {
        assert FuncSameId(fr[|fs|], funcs[m].f.pkg, funcs[m].f.name);
      }
    } else {
      assert fr == fs;
    }
  }

  // ---------------------------------------------------------------------
  // Well-formedness of the arenas.

  predicate TypeOK(t: Type, nn: nat)
  {
    t.NamedType? ==> t.id < nn
  }

  predicate HandlesOK(ms: seq<FuncId>, nf: nat)
  {
    forall i :: 0 <= i < |ms| ==> ms[i] < nf
  }

  predicate NamedOK(d: NamedState, nn: nat, nf: nat)
  {
    d.orig < nn && TypeOK(d.fromRHS, nn) && TypeOK(d.underlying, nn) && HandlesOK(d.methods, nf)
    && (d.resolver.Some? ==> TypeOK(d.resolver.value.underlying, nn) && HandlesOK(d.resolver.value.methods, nf))
  }

  predicate FuncOK(s: FuncState, nn: nat)
  {
    (s.instRecv.Some? ==> s.instRecv.value < nn) && (s.typ.Some? ==> TypeOK(s.typ.value.recv, nn))
  }

  predicate TaskOK(t: LaterTask, nn: nat, nf: nat)
  {
    match t
    case UnderCheck(n) => n < nn
    case CompleteMethods(ms) => HandlesOK(ms, nf)
  }

  predicate NamedArenaOK(named: seq<NamedState>, nf: nat)
  {
    forall k :: 0 <= k < |named| ==> NamedOK(named[k], |named|, nf)
  }

  predicate FuncArenaOK(funcs: seq<FuncState>, nn: nat)
  {
    forall k :: 0 <= k < |funcs| ==> FuncOK(funcs[k], nn)
  }

  /** Replacing one function by a well-formed one keeps the arena well-formed. */
  lemma FuncUpdateOK(funcs: seq<FuncState>, k: FuncId, s: FuncState, nn: nat)
    requires FuncArenaOK(funcs, nn) && k < |funcs| && FuncOK(s, nn)
    ensures FuncArenaOK(funcs[k := s], nn)
  {
  }

  /** Writing an in-range type into some members keeps the arena well-formed. */
  lemma SettleOK(named: seq<NamedState>, s: set<NamedId>, u: Type, nf: nat)
    requires NamedArenaOK(named, nf) && TypeOK(u, |named|)
    ensures NamedArenaOK(Settle(named, s, u), nf)
  {
    var r := Settle(named, s, u);
    forall k | 0 <= k < |r|
      ensures NamedOK(r[k], |r|, nf)
    {
      assert NamedOK(named[k], |named|, nf);
    }
  }

  /** A pointwise description of Settle. */
  lemma IsSettle(r: seq<NamedState>, named: seq<NamedState>, s: set<NamedId>, u: Type)
    requires |r| == |named|
    requires forall k :: 0 <= k < |r| ==> r[k] == if k in s then named[k].(underlying := u) else named[k]
    ensures r == Settle(named, s, u)
  {
  }

  /** Every member of s is declared in pkg. */
  ghost predicate FromPackage(named: seq<NamedState>, s: set<NamedId>, pkg: Option<Package>)
  {
    forall k :: k in s ==> k < |named| && named[k].obj.pkg == pkg
  }

  /** Resolving does not change where a type is declared. */
  lemma ResolveAllFromPackage(named: seq<NamedState>, m: set<NamedId>, s: set<NamedId>, pkg: Option<Package>)
    ensures FromPackage(ResolveAll(named, m), s, pkg) == FromPackage(named, s, pkg)
  {
  }

  /** r is named with the members of s resolved, stated pointwise. */
  ghost predicate ResolvedAt(r: seq<NamedState>, named: seq<NamedState>, s: set<NamedId>)
  {
    |r| == |named| && forall k :: 0 <= k < |r| ==> r[k] == if k in s then Resolved(named[k]) else named[k]
  }

  /** The pointwise description is ResolveAll. */
  lemma IsResolveAll(r: seq<NamedState>, named: seq<NamedState>, s: set<NamedId>)
    requires ResolvedAt(r, named, s)
    ensures r == ResolveAll(named, s)
  {
  }

  /** Resolving one more member. */
  lemma ResolveAllAdd(named: seq<NamedState>, s: set<NamedId>, n: NamedId)
    requires n < |named| && n !in s
    ensures ResolveAll(named, s)[n := Resolved(named[n])] == ResolveAll(named, s + {n})
  {
    assert forall k :: 0 <= k < |named| ==>
      ResolveAll(named, s)[n := Resolved(named[n])][k] == ResolveAll(named, s + {n})[k];
  }

  /** Resolution keeps a Named's handles in range. */
  lemma ResolvedOK(d: NamedState, nn: nat, nf: nat)
    requires NamedOK(d, nn, nf)
    ensures NamedOK(Resolved(d), nn, nf)
  {
  }

  // ---------------------------------------------------------------------
  // Completing the methods of an instance.

  /**
   * The signature of the original method as seen from instance rt: with a
   * receiver-parameter count equal to rt's type-argument count the
   * receiver becomes rt (substitution is the identity here); otherwise the
   * original signature is kept.
   */
  function InstanceSig(sig: Signature, rt: NamedId, targs: nat): (r: Signature)
    ensures r.recvTParams == sig.recvTParams
    ensures sig.recvTParams == targs ==> r.recv == NamedType(rt)
    ensures sig.recvTParams != targs ==> r == sig
  {
    if sig.recvTParams != targs then sig else sig.(recv := NamedType(rt))
  }

  /**
   * What completing a method called name of instance rt yields: the
   * instance signature of the first method of rt's original with that
   * name in rt's package, or the reason completion panics.
   */
  function Completion(named: seq<NamedState>, funcs: seq<FuncState>, rt: NamedId, name: string): (r: Outcome<Signature>)
    requires rt < |named| && named[rt].orig < |named| && HandlesOK(named[named[rt].orig].methods, |funcs|)
  {
    if named[rt].targs == 0 then Panic(AssertionFailed)
    else
      var oms := named[named[rt].orig].methods;
      var i := TypeGraph.MethodIndex(FuncsOf(funcs, oms), named[rt].obj.pkg, name);
      if i < 0 then Panic(AssertionFailed)
      else if funcs[oms[i]].typ.None? then Panic(SignatureMissing)
      else Ok(InstanceSig(funcs[oms[i]].typ.value, rt, named[rt].targs))
  }

  /**
   * Completion succeeds only for an instance with type arguments whose
   * original declares the method; the signature is then the instance
   * signature of one of the original's methods, with receiver rt when the
   * receiver-parameter count matches. A missing signature is the only
   * other panic.
   */
  lemma CompletionMeaning(named: seq<NamedState>, funcs: seq<FuncState>, rt: NamedId, name: string)
    requires rt < |named| && named[rt].orig < |named| && HandlesOK(named[named[rt].orig].methods, |funcs|)
    ensures var r := Completion(named, funcs, rt, name);
            var oms := named[named[rt].orig].methods;
            var found := HasMethod(FuncsOf(funcs, oms), Func(named[rt].obj.pkg, name, false));
            (r.Ok? ==> named[rt].targs > 0 && found)
            && (named[rt].targs == 0 || !found ==> r == Panic(AssertionFailed))
            && (named[rt].targs > 0 && found ==> r != Panic(AssertionFailed))
            && (r.Ok? && r.value.recvTParams == named[rt].targs ==> r.value.recv == NamedType(rt))
            && (r.Ok? ==> exists i :: 0 <= i < |oms| && funcs[oms[i]].typ.Some?
                                      && r.value == InstanceSig(funcs[oms[i]].typ.value, rt, named[rt].targs))
  {
    var oms := named[named[rt].orig].methods;
    var fs := FuncsOf(funcs, oms);
    var i := TypeGraph.MethodIndex(fs, named[rt].obj.pkg, name);
    if i >= 0 {
      assert FuncSameId(fs[i], named[rt].obj.pkg, name);
    }
  }

  /** The identities and signatures of the functions below bound agree. */
  ghost predicate SameBelow(f1: seq<FuncState>, f2: seq<FuncState>, bound: nat)
  {
    bound <= |f1| && bound <= |f2|
    && forall k :: 0 <= k < bound ==> f1[k].f == f2[k].f && f1[k].typ == f2[k].typ
  }

  /**
   * Completion reads only the identities and signatures of the original's
   * methods: arenas that agree on those agree on it.
   */
  lemma CompletionFrame(named: seq<NamedState>, f1: seq<FuncState>, f2: seq<FuncState>, bound: nat, rt: NamedId, name: string)
    requires rt < |named| && named[rt].orig < |named| && HandlesOK(named[named[rt].orig].methods, bound)
    requires SameBelow(f1, f2, bound)
    ensures Completion(named, f1, rt, name) == Completion(named, f2, rt, name)
  {
    var oms := named[named[rt].orig].methods;
    assert FuncsOf(f1, oms) == FuncsOf(f2, oms);
  }

  /**
   * The named types and functions of one type-checking session, with the
   * checker's package, the cycles it reported and the functions queued with
   * check.later.
   */
  class Universe {
    var named: seq<NamedState>
    var funcs: seq<FuncState>
    /** The type recorded in each type name object (by its id); a missing key is nil. */
    var objType: map<nat, Type>
    /** The checker's package. */
    const checkPkg: Option<Package>
    /** The cycles reported through check.cycleError, in order. */
    var cycles: seq<seq<TypeName>>
    /** The functions queued with check.later, in order. */
    var later: seq<LaterTask>

    ghost predicate Valid()
      reads this
    {
      NamedArenaOK(named, |funcs|) && FuncArenaOK(funcs, |named|)
      && (forall o :: o in objType ==> TypeOK(objType[o], |named|))
      && (forall k :: 0 <= k < |later| ==> TaskOK(later[k], |named|, |funcs|))
    }

    constructor (pkg: Option<Package>)
      ensures Valid() && checkPkg == pkg
      ensures named == [] && funcs == [] && objType == map[] && cycles == [] && later == []
    {
      named, funcs, objType, checkPkg, cycles, later := [], [], map[], pkg, [], [];
    }

    /** Allocate a function object. */
    method NewFunc(f: Func, typ: Option<Signature>) returns (id: FuncId)
      requires Valid() && (typ.Some? ==> TypeOK(typ.value.recv, |named|))
      modifies this
      ensures Valid() && id == |old(funcs)| && funcs == old(funcs) + [FuncState(f, None, typ, false)]
      ensures named == old(named) && objType == old(objType) && cycles == old(cycles) && later == old(later)
    {
      id := |funcs|;
      funcs := funcs + [FuncState(f, None, typ, false)];
    }

    /**
     * check.newNamed: a new Named that is its own original unless orig is
     * given; the type name takes it as its type if it has none yet; with a
     * checker, a check that its underlying type expands is queued.
     */
    method NewNamedIn(hasCheck: bool, obj: TypeName, orig: Option<NamedId>, underlying: Type,
                      tparams: nat, methods: seq<FuncId>) returns (id: NamedId)
      requires Valid() && (orig.Some? ==> orig.value < |named|)
      requires TypeOK(underlying, |named|) && HandlesOK(methods, |funcs|)
      modifies this
      ensures Valid() && id == |old(named)|
      ensures named == old(named) + [NamedState(obj, if orig.Some? then orig.value else id, underlying, underlying,
                                                tparams, 0, methods, None, false, hasCheck)]
      ensures objType == if obj.id in old(objType) then old(objType) else old(objType)[obj.id := NamedType(id)]
      ensures later == old(later) + (if hasCheck then [UnderCheck(id)] else [])
      ensures funcs == old(funcs) && cycles == old(cycles)
    {
      id := |named|;
      var o := if orig.Some? then orig.value else id;
      named := named + [NamedState(obj, o, underlying, underlying, tparams, 0, methods, None, false, hasCheck)];
      if obj.id !in objType {
        objType := objType[obj.id := NamedType(id)];
      }
      if hasCheck {
        later := later + [UnderCheck(id)];
      }
      assert forall k :: 0 <= k < |old(named)| ==> named[k] == old(named)[k];
    }

    /** NewNamed: as newNamed without a checker, refusing a Named as underlying type. */
    method NewNamed(obj: TypeName, underlying: Type, methods: seq<FuncId>) returns (r: Outcome<NamedId>)
      requires Valid() && TypeOK(underlying, |named|) && HandlesOK(methods, |funcs|)
      modifies this
      ensures Valid()
      ensures r.Panic? <==> underlying.NamedType?
      ensures r.Panic? ==> r.reason == UnderlyingIsNamed && named == old(named)
                           && objType == old(objType) && later == old(later)
      ensures r.Ok? ==> r.value == |old(named)|
                        && named == old(named) + [NamedState(obj, r.value, underlying, underlying, 0, 0, methods, None, false, false)]
                        && objType == (if obj.id in old(objType) then old(objType) else old(objType)[obj.id := NamedType(r.value)])
                        && later == old(later)
      ensures funcs == old(funcs) && cycles == old(cycles)
    {
      if underlying.NamedType? {
        return Panic(UnderlyingIsNamed);
      }
      var id := NewNamedIn(false, obj, None, underlying, 0, methods);
      return Ok(id);
    }

    /** resolve: run the pending resolver of n, once. */
    method Resolve(n: NamedId)
      requires Valid() && n < |named|
      modifies this
      ensures Valid() && named == old(named)[n := Resolved(old(named)[n])]
      ensures funcs == old(funcs) && objType == old(objType) && cycles == old(cycles) && later == old(later)
    {
      var d := named[n];
      if d.resolver.Some? && !d.resolved {
        var res := d.resolver.value;
        named := named[n := d.(tparams := res.tparams, underlying := res.underlying, methods := res.methods,
                               fromRHS := res.underlying, resolved := true)];
      }
      assert NamedOK(named[n], |named|, |funcs|);
    }

    /** Underlying: resolve, then the underlying field. */
    method Underlying(n: NamedId) returns (u: Type)
      requires Valid() && n < |named|
      modifies this
      ensures Valid() && named == old(named)[n := Resolved(old(named)[n])] && u == UnderlyingOf(old(named), n)
      ensures funcs == old(funcs) && objType == old(objType) && cycles == old(cycles) && later == old(later)
    {
      Resolve(n);
      u := named[n].underlying;
    }

    /** SetUnderlying: refuse nil or a Named, else resolve and install the underlying type. */
    method SetUnderlying(n: NamedId, u: Type) returns (r: Outcome<()>)
      requires Valid() && n < |named| && TypeOK(u, |named|)
      modifies this
      ensures Valid()
      ensures u.NilType? ==> r == Panic(UnderlyingIsNil) && named == old(named)
      ensures u.NamedType? ==> r == Panic(UnderlyingIsNamed) && named == old(named)
      ensures !u.NilType? && !u.NamedType? ==>
                r.Ok? && named == old(named)[n := Resolved(old(named)[n]).(underlying := u)]
      ensures funcs == old(funcs) && objType == old(objType) && cycles == old(cycles) && later == old(later)
    {
      if u.NilType? {
        return Panic(UnderlyingIsNil);
      }
      if u.NamedType? {
        return Panic(UnderlyingIsNamed);
      }
      Resolve(n);
      named := named[n := named[n].(underlying := u)];
      return Ok(());
    }

    /** AddMethod: resolve, then append m unless a method with its identity is already there. */
    method AddMethod(n: NamedId, m: FuncId)
      requires Valid() && n < |named| && m < |funcs|
      modifies this
      ensures Valid() && funcs == old(funcs) && objType == old(objType) && cycles == old(cycles) && later == old(later)
      ensures named == old(named)[n := Resolved(old(named)[n]).(methods :=
                         WithMethod(funcs, Resolved(old(named)[n]).methods, m))]
    {
      Resolve(n);
      var ms := named[n].methods;
      var i, _ := Lookup.LookupMethod(FuncsOf(funcs, ms), funcs[m].f.pkg, funcs[m].f.name);
      if i < 0 {
        named := named[n := named[n].(methods := ms + [m])];
      }
    }

    // -------------------------------------------------------------------
    // under.

    /**
     * under: the expanded underlying type of n0. A non-named underlying
     * type is returned as it is (Typ[Invalid] for nil). Otherwise the chain
     * is followed, a cycle is reported on the path from its first repeated
     * member, and the result is written into every member visited, unless a
     * member comes from another package, which panics part-way through the
     * writes.
     */
    method Under(n0: NamedId) returns (r: Outcome<Type>, ghost chain: seq<NamedId>)
      requires Valid() && n0 < |named|
      modifies this
      ensures Valid() && funcs == old(funcs) && objType == old(objType) && later == old(later)
      ensures !UnderlyingOf(old(named), n0).NamedType? ==>
                r.Ok? && IsChain(old(named), chain) && chain == [n0] && r.value == ChainResult(old(named), chain)
                && named == old(named)[n0 := Resolved(old(named)[n0])] && cycles == old(cycles)
      ensures UnderlyingOf(old(named), n0).NamedType? && !old(named)[n0].check ==>
                r == Panic(IncompleteWithoutChecker)
                && named == old(named)[n0 := Resolved(old(named)[n0])] && cycles == old(cycles)
      ensures UnderlyingOf(old(named), n0).NamedType? && old(named)[n0].check ==>
                IsChain(old(named), chain) && chain[0] == n0
                && cycles == old(cycles) + CycleReport(old(named), chain)
                && (r.Ok? <==> FromPackage(old(named), Written(old(named), chain), checkPkg))
                && (r.Ok? ==> r.value == ChainResult(old(named), chain)
                              && named == Settle(ResolveAll(old(named), Members(chain)), Written(old(named), chain), r.value))
                && (r.Panic? ==> r.reason == ImportedUnresolved)
                && (r.Panic? ==> exists done :: done <= Written(old(named), chain) && FromPackage(old(named), done, checkPkg)
                                  && named == Settle(ResolveAll(old(named), Members(chain)), done, ChainResult(old(named), chain)))
    {
      ghost var pre := named;
      var u := Underlying(n0);
      chain := [n0];
      MembersSingle(n0);
      if u.NilType? {
        return Ok(Invalid), chain;
      }
      if !u.NamedType? {
        return Ok(u), chain;
      }
      if !named[n0].check {
        return Panic(IncompleteWithoutChecker), chain;
      }
      r, chain := UnderChain(pre, n0, u.id);
    }

    /**
     * The rest of under once n0, resolved and with a checker, has the
     * Named n1 as its underlying type: walk the chain and write the result
     * into it; pre is the arena before n0 was resolved.
     */
    method UnderChain(ghost pre: seq<NamedState>, n0: NamedId, n1: NamedId) returns (r: Outcome<Type>, ghost chain: seq<NamedId>)
      requires Valid() && n0 < |pre| && n1 < |pre| && named == pre[n0 := Resolved(pre[n0])]
      requires UnderlyingOf(pre, n0) == NamedType(n1) && pre[n0].check
      modifies this
      ensures Valid() && funcs == old(funcs) && objType == old(objType) && later == old(later)
      ensures IsChain(pre, chain) && chain[0] == n0
      ensures cycles == old(cycles) + CycleReport(pre, chain)
      ensures r.Ok? <==> FromPackage(pre, Written(pre, chain), checkPkg)
      ensures r.Ok? ==> r.value == ChainResult(pre, chain)
                        && named == Settle(ResolveAll(pre, Members(chain)), Written(pre, chain), r.value)
      ensures r.Panic? ==> r.reason == ImportedUnresolved
      ensures r.Panic? ==> exists done :: done <= Written(pre, chain) && FromPackage(pre, done, checkPkg)
                             && named == Settle(ResolveAll(pre, Members(chain)), done, ChainResult(pre, chain))
    {
      var u, seen;
      u, seen, chain := WalkChain(pre, n0, n1);
      ResolveAllFromPackage(pre, Members(chain), seen.Keys, checkPkg);
      ghost var resolved := named;
      r := WriteUnderlying(seen, u);
      if r.Panic? {
        ghost var done :| done <= seen.Keys && FromPackage(resolved, done, checkPkg) && named == Settle(resolved, done, u);
        ResolveAllFromPackage(pre, Members(chain), done, checkPkg);
      }
    }

    /**
     * The loop of under, from n0 (already resolved) whose underlying type is
     * the Named n1: record each member in seen and its object in path, stop
     * at a repeat (reporting the cycle) or at a non-named underlying type.
     */
    method WalkChain(ghost pre: seq<NamedState>, n0: NamedId, n1: NamedId)
      returns (u: Type, seen: map<NamedId, nat>, ghost chain: seq<NamedId>)
      requires Valid() && n0 < |pre| && n1 < |pre| && named == pre[n0 := Resolved(pre[n0])]
      requires UnderlyingOf(pre, n0) == NamedType(n1)
      modifies this
      ensures Valid() && funcs == old(funcs) && objType == old(objType) && later == old(later)
      ensures IsChain(pre, chain) && chain[0] == n0
      ensures u == ChainResult(pre, chain)
      ensures seen.Keys == Written(pre, chain)
      ensures named == ResolveAll(pre, Members(chain))
      ensures cycles == old(cycles) + CycleReport(pre, chain)
    {
      var n := n0;
      var next: NamedId := n1;
      var path: seq<TypeName> := [];
      seen := map[];
      chain := [n0];
      MembersSingle(n0);
      while true
        invariant Valid() && |named| == |pre|
        invariant funcs == old(funcs) && objType == old(objType) && later == old(later) && cycles == old(cycles)
        invariant WalkInv(pre, seen, path, chain, n, next) && chain[0] == n0
        invariant ResolvedAt(named, pre, Members(chain))
        decreases |pre| - |seen|
      {
        var done;
        done, u, seen, path, chain, n, next := WalkStep(pre, seen, path, chain, n, next);
        if done {
          IsResolveAll(named, pre, Members(chain));
          return;
        }
      }
    }

    /**
     * One round of under's loop: record n, then either stop at a repeat
     * (reporting the cycle), or step to next and stop at a non-named
     * underlying type or go on.
     */
    method WalkStep(ghost pre: seq<NamedState>, seen: map<NamedId, nat>, path: seq<TypeName>,
                    ghost chain: seq<NamedId>, n: NamedId, next: NamedId)
      returns (done: bool, u: Type, seen': map<NamedId, nat>, path': seq<TypeName>,
               ghost chain': seq<NamedId>, n': NamedId, next': NamedId)
      requires Valid() && |named| == |pre|
      requires WalkInv(pre, seen, path, chain, n, next) && ResolvedAt(named, pre, Members(chain))
      modifies this
      ensures Valid() && |named| == |pre| && funcs == old(funcs) && objType == old(objType) && later == old(later)
      ensures ResolvedAt(named, pre, Members(chain')) && |chain'| >= 1 && chain'[0] == chain[0]
      ensures !done ==> WalkInv(pre, seen', path', chain', n', next') && |seen'| == |seen| + 1 && cycles == old(cycles)
      ensures done ==> IsChain(pre, chain') && u == ChainResult(pre, chain') && seen'.Keys == Written(pre, chain')
      ensures done ==> cycles == old(cycles) + CycleReport(pre, chain')
    {
      assert named[n].obj == pre[n].obj;
      seen' := seen[n := |seen|];
      path' := path + [named[n].obj];
      SeenRecord(seen, chain, n);
      PathRecord(pre, path, chain, n);
      if next in seen' {
        CloseCycle(pre, seen', path', chain, next);
        return true, Invalid, seen', path', chain, n, next;
      }
      n' := next;
      done, u, chain', next' := Advance(pre, seen', path', chain, next);
      assert chain'[0] == chain[0];
    }

    /** The cycle branch of under's loop: report the path from the repeated member on. */
    method CloseCycle(ghost pre: seq<NamedState>, seen: map<NamedId, nat>, path: seq<TypeName>,
                      ghost chain: seq<NamedId>, next: NamedId)
      requires Valid()
      requires ChainShape(pre, chain) && SeenIndex(seen, chain, |chain|) && next in seen
      requires UnderlyingOf(pre, chain[|chain| - 1]) == NamedType(next)
      requires |path| == |chain| && PathObjs(pre, path, chain)
      modifies this
      ensures Valid() && named == old(named) && funcs == old(funcs) && objType == old(objType) && later == old(later)
      ensures IsChain(pre, chain) && Cyclic(pre, chain) && seen.Keys == Written(pre, chain)
      ensures cycles == old(cycles) + CycleReport(pre, chain)
    {
      CycleKeys(pre, seen, chain, next);
      var i := seen[next];
      WalkCycleReport(pre, path, chain, i);
      cycles := cycles + [path[i..]];
    }

    /**
     * The stepping branch of under's loop: move to next, resolve it, and
     * stop if its underlying type is not a Named.
     */
    method Advance(ghost pre: seq<NamedState>, seen: map<NamedId, nat>, path: seq<TypeName>,
                   ghost chain: seq<NamedId>, next: NamedId)
      returns (done: bool, u: Type, ghost chain': seq<NamedId>, next': NamedId)
      requires Valid() && |named| == |pre| && ResolvedAt(named, pre, Members(chain))
      requires ChainShape(pre, chain) && SeenIndex(seen, chain, |chain|) && next !in seen && next < |pre|
      requires UnderlyingOf(pre, chain[|chain| - 1]) == NamedType(next)
      requires |path| == |seen| == |chain| && PathObjs(pre, path, chain)
      modifies this
      ensures Valid() && |named| == |pre| && funcs == old(funcs) && objType == old(objType) && later == old(later)
      ensures cycles == old(cycles)
      ensures chain' == chain + [next] && ResolvedAt(named, pre, Members(chain'))
      ensures !done ==> WalkInv(pre, seen, path, chain', next, next')
      ensures done ==> IsChain(pre, chain') && u == ChainResult(pre, chain') && seen.Keys == Written(pre, chain')
    {
      WalkExtend(pre, seen, chain, next);
      u := ResolveNext(pre, Members(chain), next);
      chain' := chain + [next];
      if !u.NamedType? {
        WalkEnd(pre, chain, next);
        return true, if u.NilType? then Invalid else u, chain', next;
      }
      WalkInvSnoc(pre, seen, path, chain, next, u.id);
      return false, u, chain', u.id;
    }

    /** One step of under's loop: n.Underlying(), resolving n, which was not resolved by the loop yet. */
    method ResolveNext(ghost pre: seq<NamedState>, ghost s: set<NamedId>, n: NamedId) returns (u: Type)
      requires Valid() && n < |pre| && n !in s && ResolvedAt(named, pre, s)
      modifies this
      ensures Valid() && funcs == old(funcs) && objType == old(objType) && later == old(later) && cycles == old(cycles)
      ensures ResolvedAt(named, pre, s + {n})
      ensures u == UnderlyingOf(pre, n)
    {
      Resolve(n);
      u := named[n].underlying;
    }

    /**
     * The write loop of under: set the underlying type of the members in
     * seen, in no particular order, panicking at the first member from a
     * package other than the checker's.
     */
    method WriteUnderlying(seen: map<NamedId, nat>, u: Type) returns (r: Outcome<Type>)
      requires Valid() && TypeOK(u, |named|) && forall k :: k in seen ==> k < |named|
      modifies this
      ensures Valid() && funcs == old(funcs) && objType == old(objType) && later == old(later) && cycles == old(cycles)
      ensures r.Ok? <==> FromPackage(old(named), seen.Keys, checkPkg)
      ensures r.Ok? ==> r.value == u && named == Settle(old(named), seen.Keys, u)
      ensures r.Panic? ==> r.reason == ImportedUnresolved
                           && (exists done :: done <= seen.Keys && FromPackage(old(named), done, checkPkg)
                                              && named == Settle(old(named), done, u))
    {
      var todo := seen.Keys;
      ghost var done: set<NamedId> := {};
      while todo != {}
        invariant Valid() && |named| == |old(named)| && NamedArenaOK(old(named), |funcs|)
        invariant funcs == old(funcs) && objType == old(objType) && later == old(later) && cycles == old(cycles)
        invariant todo <= seen.Keys && done == seen.Keys - todo
        invariant forall k :: k in done ==> old(named)[k].obj.pkg == checkPkg
        invariant forall k :: 0 <= k < |named| ==> named[k] == if k in done then old(named)[k].(underlying := u) else old(named)[k]
        decreases todo
      {
        var n :| n in todo;
        assert NamedOK(named[n], |named|, |funcs|);
        if named[n].obj.pkg != checkPkg {
          IsSettle(named, old(named), done, u);
          assert done <= seen.Keys && FromPackage(old(named), done, checkPkg) && named == Settle(old(named), done, u);
          return Panic(ImportedUnresolved);
        }
        named := named[n := named[n].(underlying := u)];
        todo := todo - {n};
        done := done + {n};
      }
      IsSettle(named, old(named), seen.Keys, u);
      return Ok(u);
    }

    /**
     * The closure newNamed queues: under must not leave a Named behind (the
     * panic "unexpanded underlying type" is unreachable, since under never
     * returns one), after which the type lets go of its checker. The
     * outcome, the arena and the cycles reported are under's, along the
     * chain under walks, and then n's checker is cleared.
     */
    method RunUnderCheck(n: NamedId) returns (r: Outcome<()>, ghost chain: seq<NamedId>)
      requires Valid() && n < |named|
      modifies this
      ensures Valid() && funcs == old(funcs) && objType == old(objType) && later == old(later)
      ensures !UnderlyingOf(old(named), n).NamedType? ==>
                r.Ok? && named == old(named)[n := Resolved(old(named)[n]).(check := false)] && cycles == old(cycles)
      ensures UnderlyingOf(old(named), n).NamedType? && !old(named)[n].check ==>
                r == Panic(IncompleteWithoutChecker)
                && named == old(named)[n := Resolved(old(named)[n])] && cycles == old(cycles)
      ensures UnderlyingOf(old(named), n).NamedType? && old(named)[n].check ==>
                IsChain(old(named), chain) && chain[0] == n
                && cycles == old(cycles) + CycleReport(old(named), chain)
                && (r.Ok? <==> FromPackage(old(named), Written(old(named), chain), checkPkg))
                && (r.Ok? ==>
                      var settled := Settle(ResolveAll(old(named), Members(chain)), Written(old(named), chain),
                                            ChainResult(old(named), chain));
                      named == settled[n := settled[n].(check := false)])
                && (r.Panic? ==> r.reason == ImportedUnresolved)
                && (r.Panic? ==> exists done :: done <= Written(old(named), chain) && FromPackage(old(named), done, checkPkg)
                                  && named == Settle(ResolveAll(old(named), Members(chain)), done, ChainResult(old(named), chain)))
    {
      var u;
      u, chain := Under(n);
      if u.Panic? {
        return Panic(u.reason), chain;
      }
      assert !u.value.NamedType?;
      DropChecker(n);
      return Ok(()), chain;
    }

    /** The Named n lets go of its checker; nothing else changes. */
    method DropChecker(n: NamedId)
      requires Valid() && n < |named|
      modifies this
      ensures Valid() && named == old(named)[n := old(named)[n].(check := false)]
      ensures funcs == old(funcs) && objType == old(objType) && later == old(later) && cycles == old(cycles)
    {
      named := named[n := named[n].(check := false)];
    }

    // -------------------------------------------------------------------
    // Instances.

    /**
     * completeMethod: take the pending instance receiver off the
     * placeholder method m, colour it black and give it the signature
     * Completion describes; a failed assertion or a missing original
     * signature is a panic.
     */
    method CompleteMethod(m: FuncId) returns (r: Outcome<()>)
      requires Valid() && m < |funcs|
      modifies this
      ensures Valid() && named == old(named) && objType == old(objType) && later == old(later) && cycles == old(cycles)
      ensures |funcs| == |old(funcs)| && forall k :: 0 <= k < |funcs| && k != m ==> funcs[k] == old(funcs)[k]
      ensures old(funcs)[m].instRecv.None? ==> r == Panic(AssertionFailed) && funcs == old(funcs)
      ensures old(funcs)[m].instRecv.Some? ==>
                var c := Completion(named, old(funcs), old(funcs)[m].instRecv.value, old(funcs)[m].f.name);
                funcs[m] == old(funcs)[m].(instRecv := None, black := true,
                                           typ := if c.Ok? then Some(c.value) else old(funcs)[m].typ)
                && r == (if c.Ok? then Ok(()) else Panic(c.reason))
    {
      if funcs[m].instRecv.None? {
        return Panic(AssertionFailed);
      }
      var rtyp := funcs[m].instRecv.value;
      // The receiver is taken off and m coloured black before the
      // assertions, so a panic leaves both done; the lookup does not read
      // either, so the signature may be found first.
      var c := InstanceSignature(rtyp, funcs[m].f.name);
      var typ := if c.Ok? then Some(c.value) else funcs[m].typ;
      FuncUpdateOK(funcs, m, funcs[m].(instRecv := None, black := true, typ := typ), |named|);
      funcs := funcs[m := funcs[m].(instRecv := None, black := true, typ := typ)];
      r := if c.Ok? then Ok(()) else Panic(c.reason);
    }

    /**
     * The part of completeMethod that finds the signature: the instance
     * must have type arguments, the original must declare the method, and
     * the original method must have a signature.
     */
    method InstanceSignature(rtyp: NamedId, name: string) returns (c: Outcome<Signature>)
      requires Valid() && rtyp < |named|
      ensures c == Completion(named, funcs, rtyp, name)
    {
      if named[rtyp].targs == 0 {
        return Panic(AssertionFailed);
      }
      var origMethods := named[named[rtyp].orig].methods;
      var i, orig := Lookup.LookupMethod(FuncsOf(funcs, origMethods), named[rtyp].obj.pkg, name);
      if orig.None? {
        return Panic(AssertionFailed);
      }
      var origSig := funcs[origMethods[i]].typ;
      if origSig.None? {
        return Panic(SignatureMissing);
      }
      // A receiver-parameter count other than the type-argument count keeps
      // the original signature; otherwise the receiver becomes rtyp.
      return Ok(InstanceSig(origSig.value, rtyp, named[rtyp].targs));
    }

    /**
     * The placeholder methods of an instance: one new function per original
     * method, with the same identity and receiver kind, no type yet, and n
     * as the instance receiver still to be completed.
     */
    method NewInstanceMethods(n: NamedId, oms: seq<FuncId>) returns (ms: seq<FuncId>)
      requires Valid() && n < |named| && HandlesOK(oms, |funcs|)
      modifies this
      ensures Valid() && named == old(named) && objType == old(objType) && cycles == old(cycles) && later == old(later)
      ensures |funcs| == |old(funcs)| + |oms| && forall k :: 0 <= k < |old(funcs)| ==> funcs[k] == old(funcs)[k]
      ensures |ms| == |oms|
      ensures forall i :: 0 <= i < |oms| ==>
                ms[i] == |old(funcs)| + i && funcs[ms[i]] == FuncState(old(funcs)[oms[i]].f, Some(n), None, false)
    {
      ms := [];
      var i := 0;
      while i < |oms|
        invariant 0 <= i <= |oms| && |ms| == i
        invariant Valid() && named == old(named) && objType == old(objType) && cycles == old(cycles) && later == old(later)
        invariant |funcs| == |old(funcs)| + i && forall k :: 0 <= k < |old(funcs)| ==> funcs[k] == old(funcs)[k]
        invariant forall j :: 0 <= j < i ==>
                    ms[j] == |old(funcs)| + j && funcs[ms[j]] == FuncState(old(funcs)[oms[j]].f, Some(n), None, false)
      {
        var origm := funcs[oms[i]].f;
        var m := NewFunc(Func(origm.pkg, origm.name, origm.ptrRecv), None);
        funcs := funcs[m := funcs[m].(instRecv := Some(n))];
        ms := ms + [m];
        i := i + 1;
      }
    }

    /**
     * The completeMethods closure, run at once: complete each placeholder
     * in turn, stopping at the first panic. The placeholders are ms, the
     * functions from bound on, with identities fs; the original's methods
     * lie below bound.
     */
    method CompleteAll(n: NamedId, ms: seq<FuncId>, ghost fs: seq<Func>, ghost bound: nat) returns (r: Outcome<()>)
      requires Valid() && n < |named| && HandlesOK(named[named[n].orig].methods, bound)
      requires |ms| == |fs| && bound + |ms| <= |funcs|
      requires forall i :: 0 <= i < |ms| ==> ms[i] == bound + i && funcs[ms[i]] == FuncState(fs[i], Some(n), None, false)
      modifies this
      ensures Valid() && named == old(named) && objType == old(objType) && cycles == old(cycles) && later == old(later)
      ensures |funcs| == |old(funcs)|
      ensures forall k :: 0 <= k < |funcs| && !(bound <= k < bound + |ms|) ==> funcs[k] == old(funcs)[k]
      ensures r.Ok? ==> forall i :: 0 <= i < |ms| ==>
                Completion(named, old(funcs), n, fs[i].name).Ok?
                && funcs[ms[i]] == FuncState(fs[i], None, Some(Completion(named, old(funcs), n, fs[i].name).value), true)
      ensures r.Panic? ==> exists i :: 0 <= i < |ms| && Completion(named, old(funcs), n, fs[i].name) == Panic(r.reason)
    {
      var i := 0;
      while i < |ms|
        invariant 0 <= i <= |ms|
        invariant Valid() && named == old(named) && objType == old(objType) && cycles == old(cycles) && later == old(later)
        invariant |funcs| == |old(funcs)|
        invariant forall k :: 0 <= k < |funcs| && !(bound <= k < bound + i) ==> funcs[k] == old(funcs)[k]
        invariant forall j :: 0 <= j < i ==>
                    Completion(named, old(funcs), n, fs[j].name).Ok?
                    && funcs[ms[j]] == FuncState(fs[j], None, Some(Completion(named, old(funcs), n, fs[j].name).value), true)
      {
        CompletionFrame(named, funcs, old(funcs), bound, n, fs[i].name);
        var c := CompleteMethod(ms[i]);
        if c.Panic? {
          return c;
        }
        i := i + 1;
      }
      return Ok(());
    }

    /**
     * expandNamed once the type-argument count is known to match: the
     * original's underlying type, and placeholders for its methods,
     * completed later with a checker and at once without one.
     */
    method ExpandMethods(n: NamedId) returns (r: Outcome<Resolution>)
      requires Valid() && n < |named| && named[named[n].orig].tparams == named[n].targs
      modifies this
      ensures Valid() && objType == old(objType) && cycles == old(cycles)
      ensures named == old(named)
      ensures |funcs| >= |old(funcs)| && forall k :: 0 <= k < |old(funcs)| ==> funcs[k] == old(funcs)[k]
      ensures r.Ok? ==> r.value.tparams == named[named[n].orig].tparams && HandlesOK(r.value.methods, |funcs|)
      ensures named[n].check ==> r.Ok? && later == old(later) + [CompleteMethods(r.value.methods)]
      ensures !named[n].check ==> later == old(later)
      ensures r.Ok? && named[named[n].orig].tparams == named[n].targs ==>
                var oms := named[named[n].orig].methods;
                var ms := r.value.methods;
                r.value.underlying == named[named[n].orig].underlying
                && |ms| == |oms| && FuncsOf(funcs, ms) == FuncsOf(funcs, oms)
                && forall i :: 0 <= i < |ms| ==> ms[i] == |old(funcs)| + i
      ensures r.Ok? && named[n].check ==>
                forall i :: 0 <= i < |r.value.methods| ==>
                  funcs[r.value.methods[i]].instRecv == Some(n) && funcs[r.value.methods[i]].typ.None?
                  && !funcs[r.value.methods[i]].black
      ensures r.Ok? && !named[n].check ==>
                forall i :: 0 <= i < |r.value.methods| ==>
                  var c := Completion(named, funcs, n, funcs[r.value.methods[i]].f.name);
                  c.Ok? && funcs[r.value.methods[i]].instRecv.None? && funcs[r.value.methods[i]].black
                  && funcs[r.value.methods[i]].typ == Some(c.value)
      ensures r.Panic? ==>
                !named[n].check && named[named[n].orig].tparams == named[n].targs
                && exists i :: 0 <= i < |named[named[n].orig].methods|
                               && Completion(named, funcs, n, funcs[named[named[n].orig].methods[i]].f.name) == Panic(r.reason)
    {
      var o := named[n].orig;
      var underlying := named[o].underlying;
      ghost var fs := FuncsOf(funcs, named[o].methods);
      ghost var base := funcs;
      var methods := NewInstanceMethods(n, named[o].methods);
      assert FuncsOf(funcs, methods) == fs;
      if named[n].check {
        later := later + [CompleteMethods(methods)];
      } else {
        ghost var before := funcs;
        var c := CompleteAll(n, methods, fs, |base|);
        forall name: string
          ensures Completion(named, before, n, name) == Completion(named, funcs, n, name)
        {
          CompletionFrame(named, before, funcs, |base|, n, name);
        }
        if c.Panic? {
          return Panic(c.reason);
        }
      }
      return Ok(Resolution(named[o].tparams, underlying, methods));
    }

    /**
     * expandNamed: the type parameters, underlying type and methods of the
     * instance n. The original is resolved first. When the type-argument
     * count matches the original's type parameters, the underlying type is
     * the original's (substitution is the identity here) and the methods
     * are fresh placeholders for the original's, with the same identities;
     * otherwise the underlying type is Typ[Invalid] and there are none.
     * With a checker the placeholders are completed later; without one at
     * once.
     */
    method ExpandNamed(n: NamedId) returns (r: Outcome<Resolution>)
      requires Valid() && n < |named|
      modifies this
      ensures Valid() && objType == old(objType) && cycles == old(cycles)
      ensures named == old(named)[old(named)[n].orig := Resolved(old(named)[old(named)[n].orig])]
      ensures |funcs| >= |old(funcs)| && forall k :: 0 <= k < |old(funcs)| ==> funcs[k] == old(funcs)[k]
      ensures r.Ok? ==> r.value.tparams == named[named[n].orig].tparams && HandlesOK(r.value.methods, |funcs|)
      ensures named[named[n].orig].tparams != named[n].targs ==>
                r == Ok(Resolution(named[named[n].orig].tparams, Invalid, [])) && funcs == old(funcs)
      ensures named[n].check ==> r.Ok? && later == old(later) + [CompleteMethods(r.value.methods)]
      ensures !named[n].check ==> later == old(later)
      ensures r.Ok? && named[named[n].orig].tparams == named[n].targs ==>
                var oms := named[named[n].orig].methods;
                var ms := r.value.methods;
                r.value.underlying == named[named[n].orig].underlying
                && |ms| == |oms| && FuncsOf(funcs, ms) == FuncsOf(funcs, oms)
                && forall i :: 0 <= i < |ms| ==> ms[i] == |old(funcs)| + i
      ensures r.Ok? && named[n].check ==>
                forall i :: 0 <= i < |r.value.methods| ==>
                  funcs[r.value.methods[i]].instRecv == Some(n) && funcs[r.value.methods[i]].typ.None?
                  && !funcs[r.value.methods[i]].black
      ensures r.Ok? && !named[n].check ==>
                forall i :: 0 <= i < |r.value.methods| ==>
                  var c := Completion(named, funcs, n, funcs[r.value.methods[i]].f.name);
                  c.Ok? && funcs[r.value.methods[i]].instRecv.None? && funcs[r.value.methods[i]].black
                  && funcs[r.value.methods[i]].typ == Some(c.value)
      ensures r.Panic? ==>
                !named[n].check && named[named[n].orig].tparams == named[n].targs
                && exists i :: 0 <= i < |named[named[n].orig].methods|
                               && Completion(named, funcs, n, funcs[named[named[n].orig].methods[i]].f.name) == Panic(r.reason)
    {
      var o := named[n].orig;
      Resolve(o);
      if named[o].tparams != named[n].targs {
        // The completeMethods closure still runs, over no methods.
        if named[n].check {
          later := later + [CompleteMethods([])];
        }
        return Ok(Resolution(named[o].tparams, Invalid, []));
      }
      r := ExpandMethods(n);
    }
  }

}
