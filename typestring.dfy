/**
 * The type printer of the compiler's type checker (types2 typestring.go).
 * A type writer appends the text of a type to a buffer, either to print it
 * or, given an environment, to hash it: when hashing, blanks become '#',
 * parameter names and type parameter lists are left out, named types get
 * the environment's prefix, and an error is a panic instead of text.
 *
 * Types are nodes of an arena addressed by handles, so a type may refer to
 * itself; the writer's seen set, to which a type is added while its text is
 * written, turns such a reference into a "cycle to" error.
 *
 * The writer's state is modelled as the pair of its buffer and the panic it
 * raised, if any; each spec function takes the state before a write and
 * returns the state after it, and leaves a panicked state alone.
 */
module TypeStrings {
  import opened TypeObjects
  import Numerals

  type Handle = nat

  // ---------------------------------------------------------------------
  // Types.

  datatype ChanDir = SendRecv | SendOnly | RecvOnly | UnknownDir

  datatype BasicKind = StringKind | OtherKind

  /** A type name object: its package (nil for the universe) and its name. */
  datatype TypeName = TypeName(pkg: Option<Package>, name: string)

  /** A variable of a tuple (a parameter or result). */
  datatype Param = Param(name: string, typ: Handle)

  datatype Field = Field(name: string, typ: Handle, embedded: bool, tag: string)

  datatype Term = Term(tilde: bool, typ: Handle)

  /** A signature; tparams are handles of type parameters. */
  datatype Sig = Sig(tparams: seq<Handle>, params: seq<Param>, results: seq<Param>, variadic: bool)

  datatype Method = Method(name: string, sig: Sig)

  datatype Node =
    | NilType
    | Basic(name: string, kind: BasicKind)
    | Array(len: int, elem: Handle)
    | Slice(elem: Handle)
    | Struct(fields: seq<Field>)
    | Pointer(base: Handle)
    | Tuple(vars: seq<Param>)
    | Signature(sig: Sig)
    | Union(terms: seq<Term>)
    | Interface(methods: seq<Method>, embeddeds: seq<Handle>)
    | Map(key: Handle, elem: Handle)
    | Chan(dir: ChanDir, elem: Handle)
      /** targs is nil unless the type is an instance; under is its underlying type. */
    | Named(obj: TypeName, targs: Option<seq<Handle>>, tparams: seq<Handle>, under: Handle)
    | TypeParam(tname: Option<TypeName>, id: nat, bound: Handle)
    | Top
      /** A type implemented outside the package: its String text and its Go type name. */
    | External(text: string, goType: string)

  type Arena = seq<Node>

  predicate IsTypeParam(arena: Arena, h: Handle)
  {
    h < |arena| && arena[h].TypeParam?
  }

  predicate ParamsOK(arena: Arena, vs: seq<Param>)
  {
    forall i :: 0 <= i < |vs| ==> vs[i].typ < |arena|
  }

  predicate SigOK(arena: Arena, sig: Sig)
  {
    (forall i :: 0 <= i < |sig.tparams| ==> IsTypeParam(arena, sig.tparams[i]))
    && ParamsOK(arena, sig.params) && ParamsOK(arena, sig.results)
  }

  /** Every handle a node holds is in the arena; type parameter ids are 64-bit. */
  predicate NodeOK(arena: Arena, n: Node)
  {
    match n
    case NilType => true
    case Basic(_, _) => true
    case Array(_, elem) => elem < |arena|
    case Slice(elem) => elem < |arena|
    case Struct(fields) => forall i :: 0 <= i < |fields| ==> fields[i].typ < |arena|
    case Pointer(base) => base < |arena|
    case Tuple(vars) => ParamsOK(arena, vars)
    case Signature(sig) => SigOK(arena, sig)
    case Union(terms) => forall i :: 0 <= i < |terms| ==> terms[i].typ < |arena|
    case Interface(ms, es) =>
      (forall i :: 0 <= i < |ms| ==> SigOK(arena, ms[i].sig)) && (forall i :: 0 <= i < |es| ==> es[i] < |arena|)
    case Map(k, e) => k < |arena| && e < |arena|
    case Chan(_, elem) => elem < |arena|
    case Named(_, targs, tparams, under) =>
      (targs.Some? ==> forall i :: 0 <= i < |targs.value| ==> targs.value[i] < |arena|)
      && (forall i :: 0 <= i < |tparams| ==> IsTypeParam(arena, tparams[i])) && under < |arena|
    case TypeParam(_, id, bound) => id < 0x1_0000_0000_0000_0000 && bound < |arena|
    case Top => true
    case External(_, _) => true
  }

  predicate WF(arena: Arena)
  {
    forall k :: 0 <= k < |arena| ==> NodeOK(arena, arena[k])
  }

  /** The bound of a type parameter. */
  function BoundOf(arena: Arena, h: Handle): Handle
    requires IsTypeParam(arena, h)
  {
    arena[h].bound
  }

  /** asBasic(t) is a string type: t, or the underlying type of a named t, is a basic string type. */
  predicate IsStringType(arena: Arena, h: Handle)
    requires h < |arena|
  {
    match arena[h]
    case Basic(_, kind) => kind == StringKind
    case Named(_, _, _, u) => u < |arena| && arena[u].Basic? && arena[u].kind == StringKind
    case _ => false
  }

  /** The dynamic Go type of a type, without the package qualifier, as a cycle message names it. */
  function GoTypeName(n: Node): string
  {
    match n
    case NilType => "<nil>"
    case Basic(_, _) => "*Basic"
    case Array(_, _) => "*Array"
    case Slice(_) => "*Slice"
    case Struct(_) => "*Struct"
    case Pointer(_) => "*Pointer"
    case Tuple(_) => "*Tuple"
    case Signature(_) => "*Signature"
    case Union(_) => "*Union"
    case Interface(_, _) => "*Interface"
    case Map(_, _) => "*Map"
    case Chan(_, _) => "*Chan"
    case Named(_, _, _, _) => "*Named"
    case TypeParam(_, _, _) => "*TypeParam"
    case Top => "*top"
    case External(_, goType) => goType
  }

  // ---------------------------------------------------------------------
  // Qualifiers.

  /**
   * A qualifier: nil, or any function giving the text that qualifies the
   * members of a package (an empty text leaves them unqualified).
   */
  type Qualifier = Option<Package -> string>

  /** The qualifier applied to a package; a nil qualifier gives the package path. */
  function Qualify(q: Qualifier, other: Package): string
  {
    if q.None? then other.path else q.value(other)
  }

  /**
   * RelativeTo: nil for a nil package; otherwise a qualifier that leaves
   * members of pkg unqualified and qualifies every other package by its path.
   */
  function RelativeTo(pkg: Option<Package>): (q: Qualifier)
    ensures pkg.None? <==> q.None?
    ensures pkg.Some? ==> Qualify(q, pkg.value) == ""
    ensures pkg.Some? ==> forall other :: other != pkg.value ==> Qualify(q, other) == other.path
  {
    if pkg.None? then None else Some((other: Package) => if other == pkg.value then "" else other.path)
  }

  /** A qualifier's text followed by a dot, or nothing if the text is empty. */
  function PackagePrefix(q: Qualifier, pkg: Package): (r: string)
    ensures Qualify(q, pkg) == "" ==> r == ""
    ensures Qualify(q, pkg) != "" ==> r == Qualify(q, pkg) + "."
  {
    var s := Qualify(q, pkg);
    if s == "" then "" else s + "."
  }

  // ---------------------------------------------------------------------
  // Numerals.

  function DigitChars(ds: seq<nat>, zero: nat): (s: string)
    requires forall i :: 0 <= i < |ds| ==> ds[i] < 10
    requires zero + 10 <= 0xD800
    ensures |s| == |ds| && forall i :: 0 <= i < |ds| ==> s[i] == (zero + ds[i]) as char
  {
    seq(|ds|, i requires 0 <= i < |ds| => (zero + ds[i]) as char)
  }

  /** strconv.FormatInt(n, 10) and strconv.Itoa: an optional minus sign and the decimal digits. */
  function Decimal(n: int): string
  {
    (if n < 0 then "-" else "") + DigitChars(Numerals.Digits(if n < 0 then -n else n, 10), '0' as nat)
  }

  /** The subscript digits U+2080 ... U+2089 of x, most significant first. */
  function SubscriptText(x: nat): string
  {
    DigitChars(Numerals.Digits(x, 10), 0x2080)
  }

  /** strconv.Quote of a struct tag (escaping is not modelled). */
  function Quote(s: string): string
  {
    "\"" + s + "\""
  }

  // ---------------------------------------------------------------------
  // The writer, as functions of its state.

  /** How a writer writes: printing with a qualifier, or hashing with the environment's type ids. */
  datatype Mode = Print(qf: Qualifier) | Hash(ids: Handle -> nat)

  /** The buffer written so far and the panic raised, if any. */
  datatype St = St(buf: string, panic: Option<string>)

  /** The qualifier in use: a hasher has none. */
  function QualifierOf(mode: Mode): Qualifier
  {
    if mode.Print? then mode.qf else None
  }

  /** byte: when hashing a blank is written as '#'; when printing ',' and ';' are followed by a blank. */
  function ByteW(mode: Mode, b: char, s: St): (r: St)
    ensures s.panic.Some? ==> r == s
    ensures s.panic.None? ==> r.panic.None?
  {
    if s.panic.Some? then s
    else if mode.Hash? then St(s.buf + [if b == ' ' then '#' else b], None)
    else St(s.buf + [b] + (if b == ',' || b == ';' then " " else ""), None)
  }

  function StringW(str: string, s: St): (r: St)
    ensures s.panic.Some? ==> r == s
    ensures s.panic.None? ==> r.panic.None?
  {
    if s.panic.Some? then s else St(s.buf + str, None)
  }

  /** error: "<msg>" when printing; a panic with msg when hashing. */
  function ErrorW(mode: Mode, msg: string, s: St): (r: St)
    ensures s.panic.Some? ==> r == s
    ensures mode.Print? && s.panic.None? ==> r.panic.None?
  {
    if s.panic.Some? then s
    else if mode.Hash? then St(s.buf, Some(msg))
    else St(s.buf + "<" + msg + ">", None)
  }

  /** writePackage: the qualifier's prefix for a non-nil package. */
  function PackageW(mode: Mode, pkg: Option<Package>, s: St): (r: St)
    ensures s.panic.Some? ==> r == s
    ensures s.panic.None? ==> r.panic.None?
  {
    if pkg.None? then s else StringW(PackagePrefix(QualifierOf(mode), pkg.value), s)
  }

  function TypeNameW(mode: Mode, obj: TypeName, s: St): (r: St)
    ensures s.panic.Some? ==> r == s
    ensures s.panic.None? ==> r.panic.None?
  {
    StringW(obj.name, PackageW(mode, obj.pkg, s))
  }

  /** typePrefix: the environment's id of a named type, when hashing. */
  function TypePrefixW(mode: Mode, h: Handle, s: St): (r: St)
    ensures s.panic.Some? ==> r == s
    ensures s.panic.None? ==> r.panic.None?
  {
    if mode.Hash? then StringW(Decimal(mode.ids(h)), s) else s
  }

  /** The channel keyword of a direction; an unknown direction has none. */
  function ChanKeyword(dir: ChanDir): string
  {
    match dir
    case SendRecv => "chan "
    case SendOnly => "chan<- "
    case RecvOnly => "<-chan "
    case UnknownDir => ""
  }

  /** The handles not yet on the seen stack: what the writer's recursion consumes. */
  function Unseen(arena: Arena, seen: set<Handle>): set<Handle>
  {
    set k | 0 <= k < |arena| && k !in seen
  }

  lemma UnseenShrinks(arena: Arena, seen: set<Handle>, h: Handle)
    requires h < |arena| && h !in seen
    ensures Unseen(arena, seen + {h}) < Unseen(arena, seen)
  {
    assert h in Unseen(arena, seen) && h !in Unseen(arena, seen + {h});
  }

  /** typ: a type on the seen stack is a cycle; otherwise it is written with itself on the stack. */
  function TypW(arena: Arena, mode: Mode, seen: set<Handle>, h: Handle, s: St): (r: St)
    requires WF(arena) && h < |arena|
    ensures s.panic.Some? ==> r == s
    ensures mode.Print? && s.panic.None? ==> r.panic.None?
    decreases Unseen(arena, seen), 0, 0
  {
    if s.panic.Some? then s
    else if h in seen then ErrorW(mode, "cycle to " + GoTypeName(arena[h]), s)
    else
      UnseenShrinks(arena, seen, h);
      NodeW(arena, mode, seen + {h}, h, s)
  }

  /** The text of the type h itself, h being on the seen stack. */
  function NodeW(arena: Arena, mode: Mode, seen: set<Handle>, h: Handle, s: St): (r: St)
    requires WF(arena) && h < |arena|
    ensures s.panic.Some? ==> r == s
    ensures mode.Print? && s.panic.None? ==> r.panic.None?
    decreases Unseen(arena, seen), 5, 0
  {
    assert NodeOK(arena, arena[h]);
    match arena[h]
    case NilType => ErrorW(mode, "nil", s)
    case Basic(name, _) =>
      // Of the exported basic types only unsafe.Pointer is a type name of package unsafe.
      if IsExported(name) && name == "Pointer" then TypeNameW(mode, TypeName(Some(Unsafe), name), s)
      else StringW(name, s)
    case Array(len, elem) =>
      TypW(arena, mode, seen, elem, ByteW(mode, ']', StringW(Decimal(len), ByteW(mode, '[', s))))
    case Slice(elem) => TypW(arena, mode, seen, elem, StringW("[]", s))
    case Struct(fields) => ByteW(mode, '}', FieldsW(arena, mode, seen, fields, 0, StringW("struct{", s)))
    case Pointer(base) => TypW(arena, mode, seen, base, ByteW(mode, '*', s))
    case Tuple(vars) => TupleW(arena, mode, seen, vars, false, s)
    case Signature(sig) => SignatureW(arena, mode, seen, sig, StringW("func", s))
    case Union(terms) =>
      if |terms| == 0 then ErrorW(mode, "empty union", s) else TermsW(arena, mode, seen, terms, 0, s)
    case Interface(ms, es) =>
      ByteW(mode, '}', EmbeddedsW(arena, mode, seen, es, |ms| == 0, 0,
                                  MethodsW(arena, mode, seen, ms, 0, StringW("interface{", s))))
    case Map(k, e) =>
      TypW(arena, mode, seen, e, ByteW(mode, ']', TypW(arena, mode, seen, k, StringW("map[", s))))
    case Chan(dir, elem) =>
      var parens := dir == SendRecv && arena[elem].Chan? && arena[elem].dir == RecvOnly;
      var s1 := if dir == UnknownDir then ErrorW(mode, "unknown channel direction", s) else s;
      var s2 := StringW(ChanKeyword(dir), s1);
      var s3 := TypW(arena, mode, seen, elem, if parens then ByteW(mode, '(', s2) else s2);
      if parens then ByteW(mode, ')', s3) else s3
    case Named(obj, targs, tparams, _) =>
      var s1 := TypeNameW(mode, obj, TypePrefixW(mode, h, s));
      if targs.Some? then TypeListW(arena, mode, seen, targs.value, s1)
      else if mode.Print? && |tparams| != 0 then TParamListW(arena, mode, seen, tparams, s1)
      else s1
    case TypeParam(tname, id, _) =>
      if tname.None? then ErrorW(mode, "unnamed type parameter", s)
      else StringW(tname.value.name + SubscriptText(id), PackageW(mode, tname.value.pkg, s))
    case Top => ErrorW(mode, "⊤", s)
    case External(text, _) => StringW(text, s)
  }

  /** The package unsafe. */
  const Unsafe := Package("unsafe", "unsafe")

  /** The fields of a struct from the i-th on: separated by ';', each with its name unless embedded and its tag if any. */
  function FieldsW(arena: Arena, mode: Mode, seen: set<Handle>, fields: seq<Field>, i: nat, s: St): (r: St)
    requires WF(arena) && i <= |fields| && forall j :: 0 <= j < |fields| ==> fields[j].typ < |arena|
    ensures s.panic.Some? ==> r == s
    ensures mode.Print? && s.panic.None? ==> r.panic.None?
    decreases Unseen(arena, seen), 1, |fields| - i
  {
    if s.panic.Some? then s
    else if i == |fields| then s
    else
      var f := fields[i];
      var s1 := if i > 0 then ByteW(mode, ';', s) else s;
      var s2 := if !f.embedded then ByteW(mode, ' ', StringW(f.name, s1)) else s1;
      var s3 := TypW(arena, mode, seen, f.typ, s2);
      var s4 := if f.tag != "" then StringW(Quote(f.tag), ByteW(mode, ' ', s3)) else s3;
      FieldsW(arena, mode, seen, fields, i + 1, s4)
  }

  /** The terms of a union from the i-th on, separated by '|', each with its '~'. */
  function TermsW(arena: Arena, mode: Mode, seen: set<Handle>, terms: seq<Term>, i: nat, s: St): (r: St)
    requires WF(arena) && i <= |terms| && forall j :: 0 <= j < |terms| ==> terms[j].typ < |arena|
    ensures s.panic.Some? ==> r == s
    ensures mode.Print? && s.panic.None? ==> r.panic.None?
    decreases Unseen(arena, seen), 1, |terms| - i
  {
    if s.panic.Some? then s
    else if i == |terms| then s
    else
      var s1 := if i > 0 then ByteW(mode, '|', s) else s;
      var s2 := if terms[i].tilde then ByteW(mode, '~', s1) else s1;
      TermsW(arena, mode, seen, terms, i + 1, TypW(arena, mode, seen, terms[i].typ, s2))
  }

  /** The methods of an interface from the i-th on: separated by ';', each its name and signature. */
  function MethodsW(arena: Arena, mode: Mode, seen: set<Handle>, ms: seq<Method>, i: nat, s: St): (r: St)
    requires WF(arena) && i <= |ms| && forall j :: 0 <= j < |ms| ==> SigOK(arena, ms[j].sig)
    ensures s.panic.Some? ==> r == s
    ensures mode.Print? && s.panic.None? ==> r.panic.None?
    decreases Unseen(arena, seen), 4, |ms| - i
  {
    if s.panic.Some? then s
    else if i == |ms| then s
    else
      var s1 := if i > 0 then ByteW(mode, ';', s) else s;
      MethodsW(arena, mode, seen, ms, i + 1, SignatureW(arena, mode, seen, ms[i].sig, StringW(ms[i].name, s1)))
  }

  /** The embedded types of an interface from the i-th on, after a ';' unless nothing came before. */
  function EmbeddedsW(arena: Arena, mode: Mode, seen: set<Handle>, es: seq<Handle>, noMethods: bool, i: nat, s: St): (r: St)
    requires WF(arena) && i <= |es| && forall j :: 0 <= j < |es| ==> es[j] < |arena|
    ensures s.panic.Some? ==> r == s
    ensures mode.Print? && s.panic.None? ==> r.panic.None?
    decreases Unseen(arena, seen), 1, |es| - i
  {
    if s.panic.Some? then s
    else if i == |es| then s
    else
      var s1 := if i > 0 || !noMethods then ByteW(mode, ';', s) else s;
      EmbeddedsW(arena, mode, seen, es, noMethods, i + 1, TypW(arena, mode, seen, es[i], s1))
  }

  /** typeList: the types in brackets, separated by ','. */
  function TypeListW(arena: Arena, mode: Mode, seen: set<Handle>, list: seq<Handle>, s: St): (r: St)
    requires WF(arena) && forall j :: 0 <= j < |list| ==> list[j] < |arena|
    ensures s.panic.Some? ==> r == s
    ensures mode.Print? && s.panic.None? ==> r.panic.None?
    decreases Unseen(arena, seen), 2, 0
  {
    ByteW(mode, ']', TypeItemsW(arena, mode, seen, list, 0, ByteW(mode, '[', s)))
  }

  function TypeItemsW(arena: Arena, mode: Mode, seen: set<Handle>, list: seq<Handle>, i: nat, s: St): (r: St)
    requires WF(arena) && i <= |list| && forall j :: 0 <= j < |list| ==> list[j] < |arena|
    ensures s.panic.Some? ==> r == s
    ensures mode.Print? && s.panic.None? ==> r.panic.None?
    decreases Unseen(arena, seen), 1, |list| - i
  {
    if s.panic.Some? then s
    else if i == |list| then s
    else
      var s1 := if i > 0 then ByteW(mode, ',', s) else s;
      TypeItemsW(arena, mode, seen, list, i + 1, TypW(arena, mode, seen, list[i], s1))
  }

  /**
   * tParamList: the type parameters in brackets, separated by ','; the
   * bound of a run of parameters sharing it is written before the ',' that
   * starts a parameter with another bound, and once more at the end.
   */
  function TParamListW(arena: Arena, mode: Mode, seen: set<Handle>, list: seq<Handle>, s: St): (r: St)
    requires WF(arena) && forall j :: 0 <= j < |list| ==> IsTypeParam(arena, list[j])
    ensures s.panic.Some? ==> r == s
    ensures mode.Print? && s.panic.None? ==> r.panic.None?
    decreases Unseen(arena, seen), 2, 0
  {
    ByteW(mode, ']', LastBoundW(arena, mode, seen, list, TParamItemsW(arena, mode, seen, list, 0, ByteW(mode, '[', s))))
  }

  /** The final bound tParamList writes after the loop. */
  function LastBoundW(arena: Arena, mode: Mode, seen: set<Handle>, list: seq<Handle>, s: St): (r: St)
    requires WF(arena) && forall j :: 0 <= j < |list| ==> IsTypeParam(arena, list[j])
    ensures s.panic.Some? ==> r == s
    ensures mode.Print? && s.panic.None? ==> r.panic.None?
    decreases Unseen(arena, seen), 1, 0
  {
    if |list| > 0 then
      assert IsTypeParam(arena, list[|list| - 1]) && NodeOK(arena, arena[list[|list| - 1]]);
      TypW(arena, mode, seen, BoundOf(arena, list[|list| - 1]), ByteW(mode, ' ', s))
    else s
  }

  function TParamItemsW(arena: Arena, mode: Mode, seen: set<Handle>, list: seq<Handle>, i: nat, s: St): (r: St)
    requires WF(arena) && i <= |list| && forall j :: 0 <= j < |list| ==> IsTypeParam(arena, list[j])
    ensures s.panic.Some? ==> r == s
    ensures mode.Print? && s.panic.None? ==> r.panic.None?
    decreases Unseen(arena, seen), 1, |list| - i
  {
    if s.panic.Some? then s
    else if i == |list| then s
    else
      TParamItemsW(arena, mode, seen, list, i + 1, TParamItemW(arena, mode, seen, list, i, s))
  }

  /** The i-th type parameter, after the separator (and the previous bound if it changes here). */
  function TParamItemW(arena: Arena, mode: Mode, seen: set<Handle>, list: seq<Handle>, i: nat, s: St): (r: St)
    requires WF(arena) && i < |list| && forall j :: 0 <= j < |list| ==> IsTypeParam(arena, list[j])
    ensures s.panic.Some? ==> r == s
    ensures mode.Print? && s.panic.None? ==> r.panic.None?
    decreases Unseen(arena, seen), 0, 2
  {
    var s1 := if i > 0 then ByteW(mode, ',', BoundChangeW(arena, mode, seen, list, i, s)) else s;
    assert IsTypeParam(arena, list[i]);
    TypW(arena, mode, seen, list[i], s1)
  }

  /** Before the i-th parameter: the previous bound, after a blank, if the bound changes here. */
  function BoundChangeW(arena: Arena, mode: Mode, seen: set<Handle>, list: seq<Handle>, i: nat, s: St): (r: St)
    requires WF(arena) && 0 < i < |list| && forall j :: 0 <= j < |list| ==> IsTypeParam(arena, list[j])
    ensures s.panic.Some? ==> r == s
    ensures mode.Print? && s.panic.None? ==> r.panic.None?
    decreases Unseen(arena, seen), 0, 1
  {
    assert IsTypeParam(arena, list[i - 1]) && NodeOK(arena, arena[list[i - 1]]);
    if BoundOf(arena, list[i]) != BoundOf(arena, list[i - 1]) then
      TypW(arena, mode, seen, BoundOf(arena, list[i - 1]), ByteW(mode, ' ', s))
    else s
  }

  /**
   * tuple: the variables in parentheses, separated by ','; names only when
   * printing; a variadic last slice parameter as "..." and its element
   * type, a variadic last string parameter as the type and "...".
   */
  function TupleW(arena: Arena, mode: Mode, seen: set<Handle>, vars: seq<Param>, variadic: bool, s: St): (r: St)
    requires WF(arena) && ParamsOK(arena, vars)
    ensures s.panic.Some? ==> r == s
    ensures mode.Print? && s.panic.None? ==> r.panic.None?
    decreases Unseen(arena, seen), 2, 0
  {
    ByteW(mode, ')', TupleItemsW(arena, mode, seen, vars, variadic, 0, ByteW(mode, '(', s)))
  }

  function TupleItemsW(arena: Arena, mode: Mode, seen: set<Handle>, vars: seq<Param>, variadic: bool, i: nat, s: St): (r: St)
    requires WF(arena) && i <= |vars| && ParamsOK(arena, vars)
    ensures s.panic.Some? ==> r == s
    ensures mode.Print? && s.panic.None? ==> r.panic.None?
    decreases Unseen(arena, seen), 1, |vars| - i
  {
    if s.panic.Some? then s
    else if i == |vars| then s
    else
      TupleItemsW(arena, mode, seen, vars, variadic, i + 1, TupleItemW(arena, mode, seen, vars, variadic, i, s))
  }

  /** The i-th variable of a tuple, after its separator: its name when printing, then its type. */
  function TupleItemW(arena: Arena, mode: Mode, seen: set<Handle>, vars: seq<Param>, variadic: bool, i: nat, s: St): (r: St)
    requires WF(arena) && i < |vars| && ParamsOK(arena, vars)
    ensures s.panic.Some? ==> r == s
    ensures mode.Print? && s.panic.None? ==> r.panic.None?
    decreases Unseen(arena, seen), 0, 2
  {
    var v := vars[i];
    var s1 := if i > 0 then ByteW(mode, ',', s) else s;
    var s2 := if mode.Print? && v.name != "" then ByteW(mode, ' ', StringW(v.name, s1)) else s1;
    if variadic && i == |vars| - 1 then VariadicW(arena, mode, seen, v.typ, s2)
    else TypW(arena, mode, seen, v.typ, s2)
  }

  /** The type of a variadic last parameter. */
  function VariadicW(arena: Arena, mode: Mode, seen: set<Handle>, t: Handle, s: St): (r: St)
    requires WF(arena) && t < |arena|
    ensures s.panic.Some? ==> r == s
    ensures mode.Print? && s.panic.None? ==> r.panic.None?
    decreases Unseen(arena, seen), 0, 1
  {
    assert NodeOK(arena, arena[t]);
    if arena[t].Slice? then TypW(arena, mode, seen, arena[t].elem, StringW("...", s))
    else if !IsStringType(arena, t) then ErrorW(mode, "expected string type", s)
    else StringW("...", TypW(arena, mode, seen, t, s))
  }

  /**
   * signature: the type parameters if any, the parameters, then nothing
   * for no result, a blank and the type for a single unnamed result (any
   * single result when hashing), and a blank and the result tuple otherwise.
   */
  function SignatureW(arena: Arena, mode: Mode, seen: set<Handle>, sig: Sig, s: St): (r: St)
    requires WF(arena) && SigOK(arena, sig)
    ensures s.panic.Some? ==> r == s
    ensures mode.Print? && s.panic.None? ==> r.panic.None?
    decreases Unseen(arena, seen), 3, 0
  {
    var s1 := if |sig.tparams| != 0 then TParamListW(arena, mode, seen, sig.tparams, s) else s;
    var s2 := TupleW(arena, mode, seen, sig.params, sig.variadic, s1);
    var n := |sig.results|;
    if n == 0 then s2
    else
      var s3 := ByteW(mode, ' ', s2);
      if n == 1 && (mode.Hash? || sig.results[0].name == "") then TypW(arena, mode, seen, sig.results[0].typ, s3)
      else TupleW(arena, mode, seen, sig.results, false, s3)
  }

  /** The text of a type printed with a qualifier into an empty buffer. */
  function TypeText(arena: Arena, h: Handle, qf: Qualifier): string
    requires WF(arena) && h < |arena|
  {
    TypW(arena, Print(qf), {}, h, St("", None)).buf
  }

  // ---------------------------------------------------------------------
  // The writer.

  /**
   * typeWriter: the buffer written to, the types whose text is being
   * written, and the mode (the qualifier, or the environment when hashing).
   */
  class TypeWriter {
    var buf: string
    var seen: set<Handle>
    const arena: Arena
    const mode: Mode

    /** newTypeWriter: a printer over buf using the qualifier qf. */
    constructor (arena: Arena, buf: string, qf: Qualifier)
      ensures this.arena == arena && this.buf == buf && seen == {} && mode == Print(qf)
    {
      this.arena := arena;
      this.buf := buf;
      seen := {};
      mode := Print(qf);
    }

    /** newTypeHasher: a hasher over buf taking the ids of named types from the environment. */
    constructor Hasher(arena: Arena, buf: string, ids: Handle -> nat)
      ensures this.arena == arena && this.buf == buf && seen == {} && mode == Hash(ids)
    {
      this.arena := arena;
      this.buf := buf;
      seen := {};
      mode := Hash(ids);
    }

    method Byte(b: char)
      modifies this
      ensures St(buf, None) == ByteW(mode, b, St(old(buf), None)) && seen == old(seen)
    {
      if mode.Hash? {
        var c := if b == ' ' then '#' else b;
        buf := buf + [c];
        return;
      }
      buf := buf + [b];
      if b == ',' || b == ';' {
        buf := buf + [' '];
      }
    }

    method String(str: string)
      modifies this
      ensures St(buf, None) == StringW(str, St(old(buf), None)) && seen == old(seen)
    {
      buf := buf + str;
    }

    method Error(msg: string) returns (p: Option<string>)
      modifies this
      ensures St(buf, p) == ErrorW(mode, msg, St(old(buf), None)) && seen == old(seen)
    {
      if mode.Hash? {
        return Some(msg);
      }
      buf := buf + "<" + msg + ">";
      p := None;
    }

    /** writePackage, for a package that may be nil. */
    method WritePackage(pkg: Option<Package>)
      modifies this
      ensures St(buf, None) == PackageW(mode, pkg, St(old(buf), None)) && seen == old(seen)
    {
      if pkg.Some? {
        var q := QualifierOf(mode);
        var prefix := Qualify(q, pkg.value);
        if prefix != "" {
          buf := buf + (prefix + ".");
        }
      }
    }

    method WriteTypeName(obj: TypeName)
      modifies this
      ensures St(buf, None) == TypeNameW(mode, obj, St(old(buf), None)) && seen == old(seen)
    {
      WritePackage(obj.pkg);
      String(obj.name);
    }

    method TypePrefix(h: Handle)
      modifies this
      ensures St(buf, None) == TypePrefixW(mode, h, St(old(buf), None)) && seen == old(seen)
    {
      if mode.Hash? {
        String(Decimal(mode.ids(h)));
      }
    }

    method Typ(h: Handle) returns (p: Option<string>)
      requires WF(arena) && h < |arena|
      modifies this
      ensures St(buf, p) == TypW(arena, mode, old(seen), h, St(old(buf), None)) && seen == old(seen)
      decreases Unseen(arena, seen), 0, 0
    {
      if h in seen {
        p := Error("cycle to " + GoTypeName(arena[h]));
        return;
      }
      UnseenShrinks(arena, seen, h);
      seen := seen + {h};
      p := Node(h);
      seen := seen - {h};
    }

    /** The switch of typ over the kinds of type, h being on the seen stack. */
    method Node(h: Handle) returns (p: Option<string>)
      requires WF(arena) && h < |arena|
      modifies this
      ensures St(buf, p) == NodeW(arena, mode, old(seen), h, St(old(buf), None)) && seen == old(seen)
      decreases Unseen(arena, seen), 9, 0
    {
      assert NodeOK(arena, arena[h]);
      match arena[h]
      case NilType =>
        p := Error("nil");
      case Basic(name, _) =>
        if IsExported(name) && name == "Pointer" {
          WriteTypeName(TypeName(Some(Unsafe), name));
        } else {
          String(name);
        }
        p := None;
      case Array(len, elem) =>
        Byte('[');
        String(Decimal(len));
        Byte(']');
        p := Typ(elem);
      case Slice(elem) =>
        String("[]");
        p := Typ(elem);
      case Struct(fields) =>
        p := StructType(h);
      case Pointer(base) =>
        Byte('*');
        p := Typ(base);
      case Tuple(vars) =>
        p := Tuple(vars, false);
      case Signature(sig) =>
        String("func");
        p := Signature(sig);
      case Union(terms) =>
        p := UnionType(h);
      case Interface(_, _) =>
        p := InterfaceType(h);
      case Map(k, e) =>
        String("map[");
        p := Typ(k);
        if p.Some? {
          return;
        }
        Byte(']');
        p := Typ(e);
      case Chan(_, _) =>
        p := ChanType(h);
      case Named(_, _, _, _) =>
        p := NamedType(h);
      case TypeParam(tname, id, _) =>
        if tname.None? {
          p := Error("unnamed type parameter");
          return;
        }
        WritePackage(tname.value.pkg);
        var sub := Subscript(id);
        String(tname.value.name + sub);
        p := None;
      case Top =>
        p := Error("⊤");
      case External(text, _) =>
        String(text);
        p := None;
    }

    method StructType(h: Handle) returns (p: Option<string>)
      requires WF(arena) && h < |arena| && arena[h].Struct?
      modifies this
      ensures St(buf, p) == NodeW(arena, mode, old(seen), h, St(old(buf), None)) && seen == old(seen)
      decreases Unseen(arena, seen), 8, 0
    {
      assert NodeOK(arena, arena[h]);
      var fields := arena[h].fields;
      String("struct{");
      ghost var s0 := St(buf, None);
      var i := 0;
      while i < |fields|
        invariant 0 <= i <= |fields| && seen == old(seen)
        invariant FieldsW(arena, mode, seen, fields, 0, s0) == FieldsW(arena, mode, seen, fields, i, St(buf, None))
      {
        var f := fields[i];
        if i > 0 {
          Byte(';');
        }
        if !f.embedded {
          String(f.name);
          Byte(' ');
        }
        p := Typ(f.typ);
        if p.Some? {
          return;
        }
        if f.tag != "" {
          Byte(' ');
          String(Quote(f.tag));
        }
        i := i + 1;
      }
      Byte('}');
      p := None;
    }

    method UnionType(h: Handle) returns (p: Option<string>)
      requires WF(arena) && h < |arena| && arena[h].Union?
      modifies this
      ensures St(buf, p) == NodeW(arena, mode, old(seen), h, St(old(buf), None)) && seen == old(seen)
      decreases Unseen(arena, seen), 8, 0
    {
      assert NodeOK(arena, arena[h]);
      var terms := arena[h].terms;
      if |terms| == 0 {
        p := Error("empty union");
        return;
      }
      ghost var s0 := St(buf, None);
      var i := 0;
      while i < |terms|
        invariant 0 <= i <= |terms| && seen == old(seen)
        invariant TermsW(arena, mode, seen, terms, 0, s0) == TermsW(arena, mode, seen, terms, i, St(buf, None))
      {
        if i > 0 {
          Byte('|');
        }
        if terms[i].tilde {
          Byte('~');
        }
        p := Typ(terms[i].typ);
        if p.Some? {
          return;
        }
        i := i + 1;
      }
      p := None;
    }

    method InterfaceType(h: Handle) returns (p: Option<string>)
      requires WF(arena) && h < |arena| && arena[h].Interface?
      modifies this
      ensures St(buf, p) == NodeW(arena, mode, old(seen), h, St(old(buf), None)) && seen == old(seen)
      decreases Unseen(arena, seen), 8, 0
    {
      assert NodeOK(arena, arena[h]);
      String("interface{");
      p := InterfaceMethods(arena[h].methods);
      if p.Some? {
        return;
      }
      p := InterfaceEmbeddeds(arena[h].embeddeds, |arena[h].methods| == 0);
      if p.Some? {
        return;
      }
      Byte('}');
    }

    /** The methods of an interface; first stays true only if there are none. */
    method InterfaceMethods(ms: seq<Method>) returns (p: Option<string>)
      requires WF(arena) && forall j :: 0 <= j < |ms| ==> SigOK(arena, ms[j].sig)
      modifies this
      ensures St(buf, p) == MethodsW(arena, mode, old(seen), ms, 0, St(old(buf), None)) && seen == old(seen)
      decreases Unseen(arena, seen), 7, 0
    {
      ghost var s0 := St(buf, None);
      var first := true;
      var i := 0;
      while i < |ms|
        invariant 0 <= i <= |ms| && seen == old(seen) && first == (i == 0)
        invariant MethodsW(arena, mode, seen, ms, 0, s0) == MethodsW(arena, mode, seen, ms, i, St(buf, None))
      {
        if !first {
          Byte(';');
        }
        first := false;
        String(ms[i].name);
        p := Signature(ms[i].sig);
        if p.Some? {
          return;
        }
        i := i + 1;
      }
      p := None;
    }

    /** The embedded types of an interface; first says that nothing has been written yet. */
    method InterfaceEmbeddeds(es: seq<Handle>, first: bool) returns (p: Option<string>)
      requires WF(arena) && forall j :: 0 <= j < |es| ==> es[j] < |arena|
      modifies this
      ensures St(buf, p) == EmbeddedsW(arena, mode, old(seen), es, first, 0, St(old(buf), None)) && seen == old(seen)
      decreases Unseen(arena, seen), 2, 0
    {
      ghost var s0 := St(buf, None);
      var writeSep := !first;
      var i := 0;
      while i < |es|
        invariant 0 <= i <= |es| && seen == old(seen) && writeSep == (i > 0 || !first)
        invariant EmbeddedsW(arena, mode, seen, es, first, 0, s0) == EmbeddedsW(arena, mode, seen, es, first, i, St(buf, None))
      {
        if writeSep {
          Byte(';');
        }
        writeSep := true;
        p := Typ(es[i]);
        if p.Some? {
          return;
        }
        i := i + 1;
      }
      p := None;
    }

    method ChanType(h: Handle) returns (p: Option<string>)
      requires WF(arena) && h < |arena| && arena[h].Chan?
      modifies this
      ensures St(buf, p) == NodeW(arena, mode, old(seen), h, St(old(buf), None)) && seen == old(seen)
      decreases Unseen(arena, seen), 8, 0
    {
      assert NodeOK(arena, arena[h]);
      var elem := arena[h].elem;
      var keyword := "";
      var parens := false;
      match arena[h].dir {
        case SendRecv =>
          keyword := "chan ";
          if arena[elem].Chan? && arena[elem].dir == RecvOnly {
            parens := true;
          }
        case SendOnly =>
          keyword := "chan<- ";
        case RecvOnly =>
          keyword := "<-chan ";
        case UnknownDir =>
          p := Error("unknown channel direction");
          if p.Some? {
            return;
          }
      }
      String(keyword);
      if parens {
        Byte('(');
      }
      p := Typ(elem);
      if p.Some? {
        return;
      }
      if parens {
        Byte(')');
      }
    }

    method NamedType(h: Handle) returns (p: Option<string>)
      requires WF(arena) && h < |arena| && arena[h].Named?
      modifies this
      ensures St(buf, p) == NodeW(arena, mode, old(seen), h, St(old(buf), None)) && seen == old(seen)
      decreases Unseen(arena, seen), 8, 0
    {
      assert NodeOK(arena, arena[h]);
      var t := arena[h];
      TypePrefix(h);
      WriteTypeName(t.obj);
      if t.targs.Some? {
        p := TypeList(t.targs.value);
      } else if mode.Print? && |t.tparams| != 0 {
        p := TParamList(t.tparams);
      } else {
        p := None;
      }
    }

    /** typeList. */
    method TypeList(list: seq<Handle>) returns (p: Option<string>)
      requires WF(arena) && forall j :: 0 <= j < |list| ==> list[j] < |arena|
      modifies this
      ensures St(buf, p) == TypeListW(arena, mode, old(seen), list, St(old(buf), None)) && seen == old(seen)
      decreases Unseen(arena, seen), 3, 0
    {
      Byte('[');
      ghost var s0 := St(buf, None);
      var i := 0;
      while i < |list|
        invariant 0 <= i <= |list| && seen == old(seen)
        invariant TypeItemsW(arena, mode, seen, list, 0, s0) == TypeItemsW(arena, mode, seen, list, i, St(buf, None))
      {
        if i > 0 {
          Byte(',');
        }
        p := Typ(list[i]);
        if p.Some? {
          return;
        }
        i := i + 1;
      }
      Byte(']');
      p := None;
    }

    /** tParamList, for a list of type parameters none of which is nil. */
    method TParamList(list: seq<Handle>) returns (p: Option<string>)
      requires WF(arena) && forall j :: 0 <= j < |list| ==> IsTypeParam(arena, list[j])
      modifies this
      ensures St(buf, p) == TParamListW(arena, mode, old(seen), list, St(old(buf), None)) && seen == old(seen)
      decreases Unseen(arena, seen), 3, 0
    {
      Byte('[');
      ghost var s0 := St(buf, None);
      var prev: Option<Handle> := None;
      var i := 0;
      while i < |list|
        invariant 0 <= i <= |list| && seen == old(seen)
        invariant i == 0 ==> prev.None?
        invariant i > 0 ==> prev == Some(BoundOf(arena, list[i - 1]))
        invariant TParamItemsW(arena, mode, seen, list, 0, s0) == TParamItemsW(arena, mode, seen, list, i, St(buf, None))
      {
        p := TParam(list, i, prev);
        if p.Some? {
          return;
        }
        prev := Some(BoundOf(arena, list[i]));
        i := i + 1;
      }
      if prev.Some? {
        assert IsTypeParam(arena, list[i - 1]) && NodeOK(arena, arena[list[i - 1]]);
        Byte(' ');
        p := Typ(prev.value);
        if p.Some? {
          return;
        }
      }
      Byte(']');
      p := None;
    }

    /** One step of tParamList: prev is the bound of the previous parameter, if any. */
    method TParam(list: seq<Handle>, i: nat, prev: Option<Handle>) returns (p: Option<string>)
      requires WF(arena) && i < |list| && forall j :: 0 <= j < |list| ==> IsTypeParam(arena, list[j])
      requires i == 0 ==> prev.None?
      requires i > 0 ==> prev == Some(BoundOf(arena, list[i - 1]))
      modifies this
      ensures St(buf, p) == TParamItemW(arena, mode, old(seen), list, i, St(old(buf), None)) && seen == old(seen)
      decreases Unseen(arena, seen), 2, 0
    {
      assert IsTypeParam(arena, list[i]) && NodeOK(arena, arena[list[i]]);
      var tpar := arena[list[i]];
      if i > 0 {
        assert IsTypeParam(arena, list[i - 1]) && NodeOK(arena, arena[list[i - 1]]);
        if Some(tpar.bound) != prev {
          Byte(' ');
          p := Typ(prev.value);
          if p.Some? {
            return;
          }
        }
        Byte(',');
      }
      p := Typ(list[i]);
    }

    /** tuple. */
    method Tuple(vars: seq<Param>, variadic: bool) returns (p: Option<string>)
      requires WF(arena) && ParamsOK(arena, vars)
      modifies this
      ensures St(buf, p) == TupleW(arena, mode, old(seen), vars, variadic, St(old(buf), None)) && seen == old(seen)
      decreases Unseen(arena, seen), 3, 0
    {
      Byte('(');
      ghost var s0 := St(buf, None);
      var i := 0;
      while i < |vars|
        invariant 0 <= i <= |vars| && seen == old(seen)
        invariant TupleItemsW(arena, mode, seen, vars, variadic, 0, s0) == TupleItemsW(arena, mode, seen, vars, variadic, i, St(buf, None))
      {
        p := TupleVar(vars, variadic, i);
        if p.Some? {
          return;
        }
        i := i + 1;
      }
      Byte(')');
      p := None;
    }

    /** One variable of a tuple. */
    method TupleVar(vars: seq<Param>, variadic: bool, i: nat) returns (p: Option<string>)
      requires WF(arena) && i < |vars| && ParamsOK(arena, vars)
      modifies this
      ensures St(buf, p) == TupleItemW(arena, mode, old(seen), vars, variadic, i, St(old(buf), None)) && seen == old(seen)
      decreases Unseen(arena, seen), 2, 0
    {
      var v := vars[i];
      if i > 0 {
        Byte(',');
      }
      // parameter names do not take part in type identity, so a hash leaves them out
      if mode.Print? && v.name != "" {
        String(v.name);
        Byte(' ');
      }
      if variadic && i == |vars| - 1 {
        p := Variadic(v.typ);
      } else {
        p := Typ(v.typ);
      }
    }

    /** The type of a variadic last parameter: a slice as "..." and its element, or a string type and "...". */
    method Variadic(t: Handle) returns (p: Option<string>)
      requires WF(arena) && t < |arena|
      modifies this
      ensures St(buf, p) == VariadicW(arena, mode, old(seen), t, St(old(buf), None)) && seen == old(seen)
      decreases Unseen(arena, seen), 1, 0
    {
      assert NodeOK(arena, arena[t]);
      if arena[t].Slice? {
        String("...");
        p := Typ(arena[t].elem);
        return;
      }
      if !IsStringType(arena, t) {
        p := Error("expected string type");
        return;
      }
      p := Typ(t);
      if p.Some? {
        return;
      }
      String("...");
    }

    /** signature. */
    method Signature(sig: Sig) returns (p: Option<string>)
      requires WF(arena) && SigOK(arena, sig)
      modifies this
      ensures St(buf, p) == SignatureW(arena, mode, old(seen), sig, St(old(buf), None)) && seen == old(seen)
      decreases Unseen(arena, seen), 4, 0
    {
      if |sig.tparams| != 0 {
        p := TParamList(sig.tparams);
        if p.Some? {
          return;
        }
      }
      p := Tuple(sig.params, sig.variadic);
      if p.Some? {
        return;
      }
      var n := |sig.results|;
      if n == 0 {
        return;
      }
      Byte(' ');
      if n == 1 && (mode.Hash? || sig.results[0].name == "") {
        p := Typ(sig.results[0].typ);
        return;
      }
      p := Tuple(sig.results, false);
    }
  }

  /** subscript: the subscript digits of x, written backwards into a fixed buffer. */
  method Subscript(x: nat) returns (s: string)
    requires x < 0x1_0000_0000_0000_0000
    ensures s == SubscriptText(x)
  {
    Numerals.Uint64DecimalDigits(x);
    var buf := new char[32];
    var i := 32;
    var y := x;
    ghost var done: seq<nat> := [];
    while true
      invariant 0 <= i <= 32 && i == 32 - |done|
      invariant Numerals.Digits(x, 10) == Numerals.Digits(y, 10) + done
      invariant forall k :: 0 <= k < |done| ==> done[k] < 10
      invariant buf[i..] == DigitChars(done, 0x2080)
      decreases i
    {
      DigitStep(y);
      i := i - 1;
      buf[i] := (0x2080 + y % 10) as char;
      done := [y % 10] + done;
      y := y / 10;
      if y == 0 {
        break;
      }
    }
    s := buf[i..];
  }

  lemma DigitStep(y: nat)
    ensures y < 10 ==> Numerals.Digits(y, 10) == [y % 10]
    ensures y >= 10 ==> Numerals.Digits(y, 10) == Numerals.Digits(y / 10, 10) + [y % 10]
  {
  }

  /** TypeString: the text of a type, printed with the qualifier qf. */
  method TypeString(arena: Arena, h: Handle, qf: Qualifier) returns (s: string)
    requires WF(arena) && h < |arena|
    ensures s == TypeText(arena, h, qf)
  {
    var w := new TypeWriter(arena, "", qf);
    var p := w.Typ(h);
    s := w.buf;
  }

  /** WriteType: buf followed by the text of a type printed with the qualifier qf. */
  method WriteType(buf: string, arena: Arena, h: Handle, qf: Qualifier) returns (out: string)
    requires WF(arena) && h < |arena|
    ensures out == TypW(arena, Print(qf), {}, h, St(buf, None)).buf
  {
    var w := new TypeWriter(arena, buf, qf);
    var p := w.Typ(h);
    out := w.buf;
  }

  /** WriteSignature: buf followed by the text of a signature printed with the qualifier qf. */
  method WriteSignature(buf: string, arena: Arena, sig: Sig, qf: Qualifier) returns (out: string)
    requires WF(arena) && SigOK(arena, sig)
    ensures out == SignatureW(arena, Print(qf), {}, sig, St(buf, None)).buf
  {
    var w := new TypeWriter(arena, buf, qf);
    var p := w.Signature(sig);
    out := w.buf;
  }

  // ---------------------------------------------------------------------
  // What the writer promises.

  /** Reading subscript digits back: the value of U+2080 + d is d, anything else counts as 0. */
  function DecodeSubscript(t: string): nat
  {
    Numerals.FromDigits(seq(|t|, i requires 0 <= i < |t| => if t[i] as int >= 0x2080 then t[i] as int - 0x2080 else 0), 10)
  }

  /** The subscript of x reads back as x, so distinct type parameter ids print differently. */
  lemma SubscriptRoundTrip(x: nat)
    ensures DecodeSubscript(SubscriptText(x)) == x
  {
    var ds := Numerals.Digits(x, 10);
    var t := SubscriptText(x);
    assert seq(|t|, i requires 0 <= i < |t| => if t[i] as int >= 0x2080 then t[i] as int - 0x2080 else 0) == ds;
    Numerals.FromDigitsOfDigits(x, 10);
  }

  lemma SubscriptInjective(x: nat, y: nat)
    ensures SubscriptText(x) == SubscriptText(y) <==> x == y
  {
    SubscriptRoundTrip(x);
    SubscriptRoundTrip(y);
  }

  /** A 64-bit id has between 1 and 20 subscript digits, so subscript's 32-rune buffer suffices. */
  lemma SubscriptLength(x: nat)
    requires x < 0x1_0000_0000_0000_0000
    ensures 1 <= |SubscriptText(x)| <= 20
  {
    Numerals.Uint64DecimalDigits(x);
  }

  /**
   * A reference layout of a type parameter list: each parameter, followed
   * by a blank and its bound when it is the last of a run of parameters
   * sharing that bound, and by ',' unless it is the last parameter.
   */
  function GroupedW(arena: Arena, mode: Mode, seen: set<Handle>, list: seq<Handle>, i: nat, s: St): (r: St)
    requires WF(arena) && i <= |list| && forall j :: 0 <= j < |list| ==> IsTypeParam(arena, list[j])
    ensures s.panic.Some? ==> r == s
    decreases |list| - i
  {
    if s.panic.Some? || i == |list| then s
    else
      assert IsTypeParam(arena, list[i]);
      GroupedW(arena, mode, seen, list, i + 1, GroupedTail(arena, mode, seen, list, i, TypW(arena, mode, seen, list[i], s)))
  }

  /** What follows the i-th parameter in the reference layout: its bound if a run ends there, then ','. */
  function GroupedTail(arena: Arena, mode: Mode, seen: set<Handle>, list: seq<Handle>, i: nat, s: St): (r: St)
    requires WF(arena) && i < |list| && forall j :: 0 <= j < |list| ==> IsTypeParam(arena, list[j])
    ensures s.panic.Some? ==> r == s
  {
    assert IsTypeParam(arena, list[i]) && NodeOK(arena, arena[list[i]]);
    var last := i == |list| - 1;
    var s1 := if last || BoundOf(arena, list[i + 1]) != BoundOf(arena, list[i])
              then TypW(arena, mode, seen, BoundOf(arena, list[i]), ByteW(mode, ' ', s)) else s;
    if !last then ByteW(mode, ',', s1) else s1
  }

  lemma {:induction false} TParamItemsGrouped(arena: Arena, mode: Mode, seen: set<Handle>, list: seq<Handle>, i: nat, u: St)
    requires WF(arena) && 1 <= i <= |list| && forall j :: 0 <= j < |list| ==> IsTypeParam(arena, list[j])
    ensures LastBoundW(arena, mode, seen, list, TParamItemsW(arena, mode, seen, list, i, u))
         == GroupedW(arena, mode, seen, list, i, GroupedTail(arena, mode, seen, list, i - 1, u))
    decreases |list| - i
  {
    if u.panic.None? && i < |list| {
      var g := GroupedTail(arena, mode, seen, list, i - 1, u);
      assert ByteW(mode, ',', BoundChangeW(arena, mode, seen, list, i, u)) == g;
      var y := TParamItemW(arena, mode, seen, list, i, u);
      assert y == TypW(arena, mode, seen, list[i], g);
      assert TParamItemsW(arena, mode, seen, list, i, u) == TParamItemsW(arena, mode, seen, list, i + 1, y);
      TParamItemsGrouped(arena, mode, seen, list, i + 1, y);
      assert GroupedW(arena, mode, seen, list, i, g) == GroupedW(arena, mode, seen, list, i + 1, GroupedTail(arena, mode, seen, list, i, y));
    }
  }

  /**
   * tParamList writes the reference layout: the bound of a run of
   * parameters sharing it once, after the run's last parameter.
   */
  lemma TParamListGrouped(arena: Arena, mode: Mode, seen: set<Handle>, list: seq<Handle>, s: St)
    requires WF(arena) && forall j :: 0 <= j < |list| ==> IsTypeParam(arena, list[j])
    ensures TParamListW(arena, mode, seen, list, s)
         == ByteW(mode, ']', GroupedW(arena, mode, seen, list, 0, ByteW(mode, '[', s)))
  {
    var s0 := ByteW(mode, '[', s);
    if |list| > 0 && s0.panic.None? {
      assert IsTypeParam(arena, list[0]);
      var y := TypW(arena, mode, seen, list[0], s0);
      assert TParamItemsW(arena, mode, seen, list, 0, s0) == TParamItemsW(arena, mode, seen, list, 1, y);
      TParamItemsGrouped(arena, mode, seen, list, 1, y);
      assert GroupedW(arena, mode, seen, list, 0, s0) == GroupedW(arena, mode, seen, list, 1, GroupedTail(arena, mode, seen, list, 0, y));
    }
  }

  /** Two variable lists of the same types, perhaps under other names. */
  predicate SameTypes(vs: seq<Param>, ws: seq<Param>)
  {
    |vs| == |ws| && forall i :: 0 <= i < |vs| ==> vs[i].typ == ws[i].typ
  }

  lemma {:induction false} HashTupleItemsIgnoreNames(arena: Arena, ids: Handle -> nat, seen: set<Handle>,
                                                     vs: seq<Param>, ws: seq<Param>, variadic: bool, i: nat, s: St)
    requires WF(arena) && ParamsOK(arena, vs) && SameTypes(vs, ws) && i <= |vs|
    ensures ParamsOK(arena, ws)
    ensures TupleItemsW(arena, Hash(ids), seen, vs, variadic, i, s) == TupleItemsW(arena, Hash(ids), seen, ws, variadic, i, s)
    decreases |vs| - i
  {
    assert forall j :: 0 <= j < |ws| ==> ws[j].typ == vs[j].typ;
    if s.panic.None? && i < |vs| {
      var mode := Hash(ids);
      assert TupleItemW(arena, mode, seen, vs, variadic, i, s) == TupleItemW(arena, mode, seen, ws, variadic, i, s);
      HashTupleItemsIgnoreNames(arena, ids, seen, vs, ws, variadic, i + 1, TupleItemW(arena, mode, seen, vs, variadic, i, s));
    }
  }

  /**
   * Parameter and result names take no part in a hash: signatures that
   * differ only in them hash alike.
   */
  lemma HashSignatureIgnoresNames(arena: Arena, ids: Handle -> nat, seen: set<Handle>, sig: Sig, sig': Sig, s: St)
    requires WF(arena) && SigOK(arena, sig)
    requires sig'.tparams == sig.tparams && sig'.variadic == sig.variadic
    requires SameTypes(sig.params, sig'.params) && SameTypes(sig.results, sig'.results)
    ensures SigOK(arena, sig')
    ensures SignatureW(arena, Hash(ids), seen, sig, s) == SignatureW(arena, Hash(ids), seen, sig', s)
  {
    var mode := Hash(ids);
    var s1 := if |sig.tparams| != 0 then TParamListW(arena, mode, seen, sig.tparams, s) else s;
    HashTupleItemsIgnoreNames(arena, ids, seen, sig.params, sig'.params, sig.variadic, 0, ByteW(mode, '(', s1));
    var s3 := ByteW(mode, ' ', TupleW(arena, mode, seen, sig.params, sig.variadic, s1));
    HashTupleItemsIgnoreNames(arena, ids, seen, sig.results, sig'.results, false, 0, ByteW(mode, '(', s3));
  }

  /** A type on the seen stack is written as a cycle error: text when printing, a panic when hashing. */
  lemma CycleIsError(arena: Arena, mode: Mode, seen: set<Handle>, h: Handle, s: St)
    requires WF(arena) && h < |arena| && h in seen && s.panic.None?
    ensures mode.Print? ==> TypW(arena, mode, seen, h, s) == St(s.buf + "<cycle to " + GoTypeName(arena[h]) + ">", None)
    ensures mode.Hash? ==> TypW(arena, mode, seen, h, s) == St(s.buf, Some("cycle to " + GoTypeName(arena[h])))
  {
  }
}
