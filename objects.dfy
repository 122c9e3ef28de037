/**
 * Packages, struct fields and methods as the type checker's lookups see
 * them, with the identifier rule of the Go specification: two identifiers
 * are the same if they are spelled the same and, when not exported, belong
 * to the same package.
 */
module TypeObjects {

  datatype Option<T> = None | Some(value: T)

  /** A package; a `*Package` that may be nil is an `Option<Package>`. */
  datatype Package = Package(path: string, name: string)

  /** A method: its package, name and whether its receiver is a pointer. */
  datatype Func = Func(pkg: Option<Package>, name: string, ptrRecv: bool)

  /** A struct field; `typ` is a handle into a type arena. */
  datatype Var = Var(pkg: Option<Package>, name: string, typ: nat, embedded: bool)

  /** What a selector denotes: a field or a method. */
  datatype Object = FieldObj(v: Var) | MethodObj(f: Func)

  /** Exported names begin with an upper-case letter (ASCII letters only here). */
  predicate IsExported(name: string)
  {
    |name| > 0 && 'A' <= name[0] <= 'Z'
  }

  /**
   * sameId: the object called objName in objPkg is the identifier name
   * looked up from pkg. A nil package only equals a nil package; two
   * packages are the same when their paths are.
   */
  predicate SameId(objPkg: Option<Package>, objName: string, pkg: Option<Package>, name: string)
  {
    name == objName
    && (IsExported(objName)
        || (if pkg.None? || objPkg.None? then pkg == objPkg else pkg.value.path == objPkg.value.path))
  }

  predicate FuncSameId(f: Func, pkg: Option<Package>, name: string)
  {
    SameId(f.pkg, f.name, pkg, name)
  }

  predicate VarSameId(v: Var, pkg: Option<Package>, name: string)
  {
    SameId(v.pkg, v.name, pkg, name)
  }

  predicate ObjSameId(obj: Object, pkg: Option<Package>, name: string)
  {
    match obj
    case FieldObj(v) => VarSameId(v, pkg, name)
    case MethodObj(f) => FuncSameId(f, pkg, name)
  }
}
