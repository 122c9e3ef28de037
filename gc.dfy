/**
 * The decision and list-editing logic of the go command's gc toolchain
 * driver (src/cmd/go/internal/work/gc.go): the package path passed to the
 * compiler, the removal of -N when compiling the runtime, the choice of
 * backend concurrency, the default -extld linker flag and the layout of the
 * members the internal packer appends to an archive.
 *
 * Process execution, file system access and SHA-1 hashing are outside the
 * model: their results are parameters.
 */
module GcToolchain {
  import opened Numerals

  newtype byte = x: int | 0 <= x < 256

  datatype Result<T, E> = Ok(value: T) | Err(error: E)

  // ---------------------------------------------------------------------
  // Package path for the compiler's -p flag.

  /** The build mode `plugin` (cfg.BuildBuildmode). */
  const PluginMode: string := "plugin"

  /** The pseudo import path of a package built from listed source files. */
  const CommandLineArguments: string := "command-line-arguments"

  /** The parts of a package that decide its path. */
  datatype Package = Package(importPath: string, name: string, forceLibrary: bool)

  /**
   * The package path of a plugin's main package. A main package with a real
   * import path keeps it; one built from files on the command line gets a
   * name made of the hexadecimal SHA-1 digest of its build ID and sources,
   * which is passed in as `digestHex`.
   */
  function PluginPath(p: Package, digestHex: string): (r: string)
    ensures p.importPath != CommandLineArguments ==> r == p.importPath
    ensures p.importPath == CommandLineArguments ==> r == "plugin/unnamed-" + digestHex
  {
    if p.importPath != CommandLineArguments then p.importPath
    else "plugin/unnamed-" + digestHex
  }

  /**
   * The path the compiler is told the package has: the plugin path in plugin
   * mode, "main" for a main package that is not forced to be a library, and
   * the import path otherwise.
   */
  function PkgPath(buildmode: string, p: Package, digestHex: string): (r: string)
    ensures buildmode == PluginMode ==> r == PluginPath(p, digestHex)
    ensures buildmode != PluginMode && p.name == "main" && !p.forceLibrary ==> r == "main"
    ensures buildmode != PluginMode && !(p.name == "main" && !p.forceLibrary) ==> r == p.importPath
  {
    var ppath := p.importPath;
    if buildmode == PluginMode then PluginPath(p, digestHex)
    else if p.name == "main" && !p.forceLibrary then "main"
    else ppath
  }

  /**
   * In plugin mode a package built from command-line files is never given
   * the pseudo path itself, and outside plugin mode only "main" or the
   * import path is possible.
   */
  lemma PkgPathNeverPseudo(buildmode: string, p: Package, digestHex: string)
    ensures buildmode == PluginMode ==> PkgPath(buildmode, p, digestHex) != CommandLineArguments
    ensures buildmode != PluginMode ==> PkgPath(buildmode, p, digestHex) in {"main", p.importPath}
  {
    if buildmode == PluginMode && p.importPath == CommandLineArguments {
      var r := PkgPath(buildmode, p, digestHex);
      assert r[0] == 'p' && CommandLineArguments[0] == 'c';
    }
  }

  // ---------------------------------------------------------------------
  // Removing -N from the compiler flags of the runtime.

  /** The flags with every "-N" removed, the others kept in order. */
  function WithoutDashN(flags: seq<string>): seq<string>
  {
    if flags == [] then []
    else (if flags[0] == "-N" then [] else [flags[0]]) + WithoutDashN(flags[1..])
  }

  lemma {:induction false} WithoutDashNAppend(a: seq<string>, b: seq<string>)
    ensures WithoutDashN(a + b) == WithoutDashN(a) + WithoutDashN(b)
    decreases |a|
  {
    if a == [] {
      assert a + b == b;
    } else {
      assert (a + b)[0] == a[0];
      assert (a + b)[1..] == a[1..] + b;
      WithoutDashNAppend(a[1..], b);
    }
  }

  /** Extending the scanned prefix by one flag extends the result by that flag unless it is "-N". */
  lemma WithoutDashNStep(flags: seq<string>, k: nat)
    requires k < |flags|
    ensures WithoutDashN(flags[..k + 1])
            == WithoutDashN(flags[..k]) + (if flags[k] == "-N" then [] else [flags[k]])
  {
    assert flags[..k + 1] == flags[..k] + [flags[k]];
    WithoutDashNAppend(flags[..k], [flags[k]]);
  }

  /** No "-N" survives, and every other flag keeps its number of occurrences. */
  lemma {:induction false} WithoutDashNCounts(flags: seq<string>)
    ensures "-N" !in WithoutDashN(flags)
    ensures forall f :: f != "-N" ==> multiset(WithoutDashN(flags))[f] == multiset(flags)[f]
    decreases |flags|
  {
    if flags != [] {
      WithoutDashNCounts(flags[1..]);
      assert flags == [flags[0]] + flags[1..];
      assert multiset(flags) == multiset([flags[0]]) + multiset(flags[1..]);
    }
  }

  /** Flags without "-N" are left exactly as they were. */
  lemma {:induction false} WithoutDashNIdentity(flags: seq<string>)
    requires "-N" !in flags
    ensures WithoutDashN(flags) == flags
    decreases |flags|
  {
    if flags != [] {
      WithoutDashNIdentity(flags[1..]);
    }
  }

  /**
   * copy(a[i:n], a[i+1:n]): shift the elements after position i one place
   * to the left; position n-1 keeps its old value.
   */
  method ShiftLeft(a: array<string>, i: nat, n: nat)
    requires i < n <= a.Length
    modifies a
    ensures a[..i] == old(a[..i])
    ensures a[i..n - 1] == old(a[i + 1..n])
    ensures a[n - 1..] == old(a[n - 1..])
  {
    var j := i;
    while j < n - 1
      invariant i <= j <= n - 1
      invariant a[..i] == old(a[..i])
      invariant a[i..j] == old(a[i + 1..j + 1])
      invariant a[j..] == old(a[j..])
    {
      a[j] := a[j + 1];
      j := j + 1;
    }
  }

  /**
   * The loop that drops every "-N" from the gcflags slice in place; the
   * slice that remains is a[..n].
   */
  method RemoveDashN(a: array<string>) returns (n: nat)
    modifies a
    ensures n <= a.Length
    ensures a[..n] == WithoutDashN(old(a[..]))
  {
    ghost var orig := a[..];
    ghost var k := 0;
    n := a.Length;
    var i: nat := 0;
    while i < n
      invariant 0 <= i <= n <= a.Length
      invariant 0 <= k <= |orig| && n - i == |orig| - k
      invariant a[..i] == WithoutDashN(orig[..k])
      invariant a[i..n] == orig[k..]
    {
      i, n := DashNStep(a, i, n, orig, k);
      k := k + 1;
    }
    assert orig[..k] == orig;
  }

  /**
   * One turn of that loop: drop a[i] when it is "-N" (the copy, the
   * shortened slice and i-- followed by the loop's i++), keep it otherwise.
   * Either way one more flag of the original slice has been scanned.
   */
  method DashNStep(a: array<string>, i: nat, n: nat, ghost orig: seq<string>, ghost k: nat)
    returns (i': nat, n': nat)
    requires i < n <= a.Length && k < |orig| && n - i == |orig| - k
    requires a[..i] == WithoutDashN(orig[..k]) && a[i..n] == orig[k..]
    modifies a
    ensures i' <= n' <= a.Length && n' - i' == |orig| - (k + 1)
    ensures a[..i'] == WithoutDashN(orig[..k + 1]) && a[i'..n'] == orig[k + 1..]
  {
    ghost var before := a[..];
    assert before[i] == orig[k] by { assert before[i..n][0] == orig[k..][0]; }
    assert before[i + 1..n] == orig[k + 1..] by {
      assert before[i + 1..n] == before[i..n][1..];
    }
    WithoutDashNStep(orig, k);
    if a[i] == "-N" {
      ShiftLeft(a, i, n);
      i', n' := i, n - 1;
    } else {
      assert a[..i + 1] == a[..i] + [a[i]];
      i', n' := i + 1, n;
    }
  }

  // ---------------------------------------------------------------------
  // Backend concurrency.

  /** The compiler flags known not to conflict with concurrent compilation. */
  const ConcurrencySafeFlags: set<string> := {"-N", "-l", "-S", "-B", "-C", "-I"}

  /** The outcome of gcBackendConcurrency: a level, or log.Fatalf. */
  datatype Concurrency = Level(c: int) | Fatal(value: string)

  /**
   * The backend concurrency for one compilation. `env` is the value of
   * GO19CONCURRENTCOMPILATION ("" when unset), `enabledByDefault` the
   * toolchain's default, `fieldTrack` and `preemptibleLoops` the two
   * experiments that disable it, `gomaxprocs` runtime.GOMAXPROCS(0) and
   * `buildP` the -p build flag.
   */
  method GcBackendConcurrency(gcflags: seq<string>, env: string, enabledByDefault: bool,
                              fieldTrack: bool, preemptibleLoops: bool,
                              gomaxprocs: int, buildP: int)
    returns (r: Concurrency)
    ensures r.Fatal? <==> env !in {"0", "1", ""}
    ensures r.Fatal? ==> r.value == env
    ensures r.Level? && (env == "0" || (env == "" && !enabledByDefault)) ==> r.c == 1
    ensures r.Level? && (exists f :: f in gcflags && f !in ConcurrencySafeFlags) ==> r.c == 1
    ensures r.Level? && (fieldTrack || preemptibleLoops) ==> r.c == 1
    ensures r.Level? && (env == "1" || (env == "" && enabledByDefault))
            && (forall f :: f in gcflags ==> f in ConcurrencySafeFlags)
            && !fieldTrack && !preemptibleLoops
            ==> r.c == (if buildP == 1 then gomaxprocs else if gomaxprocs > 4 then 4 else gomaxprocs)
  {
    var canDashC := enabledByDefault;
    if env == "0" {
      canDashC := false;
    } else if env == "1" {
      canDashC := true;
    } else if env == "" {
      // not set: keep the default
    } else {
      return Fatal(env);
    }
    ghost var envAllows := canDashC;

    var i := 0;
    while i < |gcflags|
      invariant 0 <= i <= |gcflags|
      invariant canDashC <==> envAllows && forall j :: 0 <= j < i ==> gcflags[j] in ConcurrencySafeFlags
    {
      if gcflags[i] !in ConcurrencySafeFlags {
        canDashC := false;
        break;
      }
      i := i + 1;
    }
    assert !canDashC ==> !envAllows || exists f :: f in gcflags && f !in ConcurrencySafeFlags;

    if fieldTrack || preemptibleLoops {
      canDashC := false;
    }
    if !canDashC {
      return Level(1);
    }
    var c := gomaxprocs;
    if buildP == 1 {
      return Level(c);
    }
    if c > 4 {
      c := 4;
    }
    return Level(c);
  }

  // ---------------------------------------------------------------------
  // The default external linker flag.

  /** `f == "-extld" || strings.HasPrefix(f, "-extld=")`. */
  predicate IsExtldFlag(f: string)
  {
    f == "-extld" || (|f| >= 7 && f[..7] == "-extld=")
  }

  /**
   * setextld: keep the linker flags if one of them already chooses the
   * external linker, otherwise append exactly one -extld=... flag. `joined`
   * is the result of str.JoinAndQuoteFields on the compiler command.
   */
  method SetExtld(ldflags: seq<string>, joined: Result<string, string>)
    returns (r: Result<seq<string>, string>)
    ensures (exists f :: f in ldflags && IsExtldFlag(f)) ==> r == Ok(ldflags)
    ensures (forall f :: f in ldflags ==> !IsExtldFlag(f)) && joined.Ok?
            ==> r == Ok(ldflags + ["-extld=" + joined.value])
    ensures (forall f :: f in ldflags ==> !IsExtldFlag(f)) && joined.Err?
            ==> r == Err(joined.error)
  {
    var i := 0;
    while i < |ldflags|
      invariant 0 <= i <= |ldflags|
      invariant forall j :: 0 <= j < i ==> !IsExtldFlag(ldflags[j])
    {
      var f := ldflags[i];
      if f == "-extld" || (|f| >= 7 && f[..7] == "-extld=") {
        assert f in ldflags && IsExtldFlag(f);
        return Ok(ldflags);
      }
      i := i + 1;
    }
    if joined.Err? {
      return Err(joined.error);
    }
    return Ok(ldflags + ["-extld=" + joined.value]);
  }

  /** A flag list produced by SetExtld names the external linker exactly once more than before. */
  lemma SetExtldOnce(ldflags: seq<string>, joined: string)
    requires forall f :: f in ldflags ==> !IsExtldFlag(f)
    ensures |set i | 0 <= i < |ldflags + ["-extld=" + joined]| && IsExtldFlag((ldflags + ["-extld=" + joined])[i])| == 1
  {
    var r := ldflags + ["-extld=" + joined];
    var s := set i | 0 <= i < |r| && IsExtldFlag(r[i]);
    assert ("-extld=" + joined)[..7] == "-extld=";
    forall i | 0 <= i < |ldflags| ensures !IsExtldFlag(r[i]) {
      assert r[i] == ldflags[i];
      assert ldflags[i] in ldflags;
    }
    assert s == {|ldflags|};
  }

  // ---------------------------------------------------------------------
  // Archive members written by packInternal.

  const Space: byte := 32
  const Backquote: byte := 96
  const Newline: byte := 10

  /** The width of the name field of an archive member header. */
  const NameFieldWidth: nat := 16

  /** `n` spaces (strings.Repeat(" ", n)). */
  function Spaces(n: nat): (s: seq<byte>)
    ensures |s| == n && forall i :: 0 <= i < n ==> s[i] == Space
  {
    seq(n, i => Space)
  }

  /**
   * The name field: the first 16 bytes of a longer name, or the name padded
   * with spaces to 16 bytes. Bytes rather than runes, so a long name may be
   * cut inside a multi-byte character.
   */
  function NameField(name: seq<byte>): (f: seq<byte>)
    ensures |f| == NameFieldWidth
    ensures |name| > NameFieldWidth ==> f == name[..NameFieldWidth]
    ensures |name| <= NameFieldWidth ==> f[..|name|] == name
    ensures forall i :: |name| <= i < NameFieldWidth ==> f[i] == Space
  {
    if |name| > NameFieldWidth then name[..NameFieldWidth]
    else name + Spaces(NameFieldWidth - |name|)
  }

  /** Drop trailing spaces, as an archive reader does with the name field. */
  function TrimTrailingSpaces(s: seq<byte>): seq<byte>
  {
    if s != [] && s[|s| - 1] == Space then TrimTrailingSpaces(s[..|s| - 1]) else s
  }

  lemma {:induction false} TrimSpacesAfter(name: seq<byte>, k: nat)
    requires name == [] || name[|name| - 1] != Space
    ensures TrimTrailingSpaces(name + Spaces(k)) == name
    decreases k
  {
    if k > 0 {
      var s := name + Spaces(k);
      assert s[..|s| - 1] == name + Spaces(k - 1);
      TrimSpacesAfter(name, k - 1);
    } else {
      assert name + Spaces(0) == name;
    }
  }

  /** A name of at most 16 bytes that does not end in a space is read back unchanged. */
  lemma NameFieldRoundTrip(name: seq<byte>)
    requires |name| <= NameFieldWidth
    requires name == [] || name[|name| - 1] != Space
    ensures TrimTrailingSpaces(NameField(name)) == name
  {
    TrimSpacesAfter(name, NameFieldWidth - |name|);
  }

  /** The ASCII digits of n in the given base (fmt's %d and %o). */
  function Ascii(n: nat, base: nat): (s: seq<byte>)
    requires 2 <= base <= 10
    ensures |s| == |Digits(n, base)|
    ensures forall i :: 0 <= i < |s| ==> 48 <= s[i] < 48 + base as byte
  {
    var ds := Digits(n, base);
    seq(|ds|, i requires 0 <= i < |ds| => (48 + ds[i]) as byte)
  }

  /** fmt's "%-<w>d": left-justified in a field of at least w bytes. */
  function LeftJustified(s: seq<byte>, w: nat): (f: seq<byte>)
    ensures |f| == if |s| < w then w else |s|
    ensures f[..|s|] == s
  {
    if |s| < w then s + Spaces(w - |s|) else s
  }

  /** The file mode written in every header, 0644. */
  const Mode: nat := 0x1A4

  /** The header "%s%-12d%-6d%-6d%-8o%-10d`\n" of a member of the given size. */
  function Header(name: seq<byte>, size: nat): seq<byte>
  {
    NameField(name) + HeaderFields(size)
  }

  /** What follows the name field: modification time, owner, group, mode, size and the end marker. */
  function HeaderFields(size: nat): seq<byte>
  {
    LeftJustified(Ascii(0, 10), 12)
    + LeftJustified(Ascii(0, 10), 6)
    + LeftJustified(Ascii(0, 10), 6)
    + LeftJustified(Ascii(Mode, 8), 8)
    + LeftJustified(Ascii(size, 10), 10)
    + [Backquote, Newline]
  }

  /** One member: header, contents, and a zero byte after an odd-sized body. */
  function Member(name: seq<byte>, data: seq<byte>): seq<byte>
  {
    Header(name, |data|) + data + (if |data| % 2 != 0 then [0 as byte] else [])
  }

  /**
   * A member whose size fits the 10-byte size field has a 60-byte header
   * that starts with its name field, and an even total length, so the next
   * member starts on an even offset.
   */
  lemma MemberLayout(name: seq<byte>, data: seq<byte>)
    requires |data| < 10_000_000_000
    ensures |Header(name, |data|)| == 60
    ensures Member(name, data)[..NameFieldWidth] == NameField(name)
    ensures Member(name, data)[60..60 + |data|] == data
    ensures |Member(name, data)| % 2 == 0
  {
    HeaderLength(name, |data|);
    var h := Header(name, |data|);
    var pad: seq<byte> := if |data| % 2 != 0 then [0 as byte] else [];
    var m := Member(name, data);
    assert m == h + data + pad;
    assert h[..NameFieldWidth] == NameField(name);
    assert m[..NameFieldWidth] == h[..NameFieldWidth];
    assert m[60..60 + |data|] == data;
  }

  lemma HeaderLength(name: seq<byte>, size: nat)
    requires size < 10_000_000_000
    ensures |Header(name, size)| == 60
  {
    assert Pow(10, 10) == 10_000_000_000 by {
      assert Pow(10, 5) == 100_000;
      PowAdd(10, 5, 5);
    }
    DigitsLengthBound(size, 10, 10);
    assert |LeftJustified(Ascii(size, 10), 10)| == 10;
    assert |Header(name, size)| == 16 + |HeaderFields(size)|;
    assert |Ascii(Mode, 8)| == 3 by {
      assert Digits(Mode, 8) == Digits(Mode / 8, 8) + [Mode % 8];
    }
    assert |LeftJustified(Ascii(Mode, 8), 8)| == 8;
    assert |Ascii(0, 10)| == 1;
  }

  /** An object file to append: its name, the size os.Stat reports and its bytes. */
  datatype ObjFile = ObjFile(name: seq<byte>, statSize: nat, content: seq<byte>)

  /** Why copying a file failed: it was shorter or longer than its reported size. */
  datatype PackError = UnexpectedEOF(file: nat) | LargerThanStat(file: nat)

  /** The members for the first n object files, in order. */
  function Members(files: seq<ObjFile>, n: nat): seq<byte>
    requires n <= |files|
  {
    if n == 0 then []
    else Members(files, n - 1) + Member(files[n - 1].name, files[n - 1].content)
  }

  lemma MemberParts(f: ObjFile, name: seq<byte>)
    requires name == NameField(f.name) && |f.content| == f.statSize
    ensures Member(f.name, f.content)
            == name + HeaderFields(f.statSize) + f.content
               + (if f.statSize % 2 != 0 then [0 as byte] else [])
  {
  }

  /** The members for one more file are those before it followed by its member. */
  lemma MembersStep(files: seq<ObjFile>, i: nat, member: seq<byte>)
    requires i < |files|
    requires member == Member(files[i].name, files[i].content)
    ensures Members(files, i + 1) == Members(files, i) + member
  {
  }

  lemma AppendAssoc<T>(a: seq<T>, b: seq<T>, c: seq<T>, bc: seq<T>)
    requires bc == b + c
    ensures a + b + c == a + bc
  {
  }

  /** Every file's content has the size its stat reported. */
  predicate SizesAgree(files: seq<ObjFile>)
  {
    forall k :: 0 <= k < |files| ==> |files[k].content| == files[k].statSize
  }

  lemma PrefixSizes(files: seq<ObjFile>, i: nat)
    requires i <= |files|
    requires forall k :: 0 <= k < i ==> |files[k].content| == files[k].statSize
    ensures SizesAgree(files[..i])
  {
  }

  /**
   * packInternal: append one member per object file, in order, to what the
   * archive already holds. The first file whose content disagrees with its
   * reported size stops the packing with an error.
   */
  method PackInternal(archive: seq<byte>, files: seq<ObjFile>) returns (r: Result<seq<byte>, PackError>)
    ensures r.Ok? <==> SizesAgree(files)
    ensures r.Ok? ==> r.value == archive + Members(files, |files|)
    ensures r.Err? ==> var k := r.error.file;
              k < |files| && SizesAgree(files[..k])
              && (r.error.UnexpectedEOF? <==> |files[k].content| < files[k].statSize)
              && (r.error.LargerThanStat? <==> |files[k].content| > files[k].statSize)
  {
    var w := archive;
    var i := 0;
    while i < |files|
      invariant 0 <= i <= |files|
      invariant forall k :: 0 <= k < i ==> |files[k].content| == files[k].statSize
      invariant w == archive + Members(files, i)
    {
      var f := files[i];
      var name := NameField(f.name);
      var size := f.statSize;
      var member := name + HeaderFields(size);
      var n := |f.content|;
      member := member + f.content;
      if n != size {
        PrefixSizes(files, i);
        if n < size {
          return Err(UnexpectedEOF(i));
        } else {
          return Err(LargerThanStat(i));
        }
      }
      if size % 2 != 0 {
        member := member + [0];
      }
      MemberParts(f, name);
      MembersStep(files, i, member);
      AppendAssoc(archive, Members(files, i), member, Members(files, i + 1));
      w := w + member;
      i := i + 1;
    }
    return Ok(w);
  }
}
