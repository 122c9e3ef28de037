# Go type checker, compiler and build-tool core, in Dafny

This project models five pieces of the Go toolchain. Each is proved
against a specification written beside it.

- **Selectors through embedding** (`go/types` lookup.go). The search is
  breadth-first over embedding depth:
  - the shallowest match wins;
  - a match that is the only one at its depth, on a type reached along
    one path, is found;
  - two matches at one depth, or a match on a type that occurs more than
    once at that depth, is ambiguous;
  - a method with a pointer receiver, reached without indirection on a
    non-addressable operand, needs an address;
  - named types already searched are skipped.

  Types live in an arena of nodes addressed by handles (module
  `TypeGraph`). `Reach` follows an index path through embedded fields.
  `Selected` says which field or method an index picks. `NoMatchAbove` and
  `NoMatchAnywhere` state what a shallower or a complete search would have
  found. `OnlySelection` says that no other path of the same length selects
  anything, and `OtherSelection` that another one does. The depth loop of
  `lookupFieldOrMethod` is proved sound against these (`Sound`). Soundness
  determines the result, up to which colliding path an ambiguous result
  names.

  `consolidateMultiples` compacts an array in place (module `Embedding`).
  It is proved equal to a reference function, `Consolidated`: keep the
  first entry of each class of identical types, in order, marked as a
  multiple when its class has more than one member.
- **Named types** (`go/types` named.go). `Universe` is a class. Its fields
  are the arena of `Named` records and function objects, the checker's
  package, the cycles it reported and the functions queued with
  `check.later`.
  - `resolve` runs its resolver once.
  - `AddMethod` never adds a duplicate.
  - `under` follows the chain of named types with a `seen` map and a
    `path`. It reports a cycle on the path from the first repeated member,
    then writes the result into every member it visited. It is proved
    against the chain (`IsChain`), the result it must give
    (`ChainResult`), the cycle it must report (`CycleReport`) and the
    members it must write (`Written`).
  - `expandNamed` and `completeMethod` instantiate the methods of a
    generic type.
- **Type strings** (types2 typestring.go). `TypeWriter` is a class with a
  buffer and a `seen` stack. It writes a type in print mode or in hash
  mode (with the environment's type ids). In print mode the qualifier is
  nil or any function from packages to text, as in Go; `RelativeTo` builds
  one.
  - Every write has a specification function. That function takes the
    writer's state (buffer, panic) before the write and returns the state
    after it.
  - Each method is proved to leave exactly that state and to restore
    `seen`.
  - Lemmas over the functions give the cycle error, the grouped layout of
    type-parameter bounds, hashing that ignores parameter names, and the
    round trip of the subscript digits.
- **IR generation** (noder irgen.go). `IRGen` is a class holding:
  - the `later` queue, a FIFO of tasks that may queue more tasks;
  - the log of tasks run;
  - the declaration list, an array.

  Draining the queue is proved to run every task, spawned ones included,
  in the order given by `RunOrder`, and to leave the queue empty. That is
  the final assertion of `generate`. It is proved on the assumption that
  the compiler passes run between the drain and the assertion queue no
  tasks, since those passes are not part of this model. Removing
  generic functions compacts the array in place and keeps exactly the
  other declarations, in order. Also modelled: the `-complete` report and
  the section layout of a `dictInfo`.
- **Build flags** (cmd/go gc.go):
  - removing `-N` from the compiler flags in place;
  - the backend-concurrency decision;
  - `setextld`, `pkgPath` and `pluginPath`;
  - the archive member layout written by `packInternal`: the 16-byte name
    field, the 60-byte header and the padding byte after an odd-sized
    member.

Go panics and `log.Fatalf` become result values (`Outcome`, `Result`,
`Concurrency`), never preconditions. The environment, `GOMAXPROCS`, the
`-p` flag, experiments, a SHA-1 digest and `JoinAndQuoteFields` are
parameters.

## Model

| member | source | states |
|---|---|---|
| Lookup.LookupFieldOrMethod | src/go/types/lookup.go:40-59 | The blank name is never found. On a type that is not a named pointer, the result is the search on T: not found for `*T` of a type parameter or interface, and otherwise a sound result (`Sound`). On a named type whose underlying type is a pointer, the result is a sound result of the search on that pointer type with a non-addressable operand, except that a found method becomes not found. There, needs-address never results and only a field can be found. |
| Lookup.LookupFieldOrMethodIn | src/go/types/lookup.go:67-227 | The blank name is not found. `*T` of a type parameter or interface is not found. Every other result is sound (`Sound`). Needs-address never results when T is a pointer. |
| Lookup.SoundDetermined | src/go/types/lookup.go:67-227 | `Sound` pins the result down. Two sound results for the same lookup are equal, except that two ambiguous results may name different colliding paths of the same length. Found and ambiguous exclude each other: found means no other path of its length selects anything, ambiguous means one does. |
| Lookup.SearchDepths | src/go/types/lookup.go:87-226 | The depth loop, from T's base type as the only entry, ends with a sound result. It terminates because each further depth meets a named type for the first time. |
| Lookup.SearchDepth | src/go/types/lookup.go:100-224 | One depth ends the search with a sound result: ambiguous on a collision, found or needs-address on a match. Otherwise it yields the consolidated entries of the next depth. Those keep the loop invariant and make the measure drop. The invariant says: every type reachable at the depth is covered, nothing matches above, an entry marked as a multiple is reached along another path, and an unmarked entry along its own path only. |
| Lookup.SoleSelection | src/go/types/lookup.go:207-220 | A match still standing at the end of a depth is on the only path of that length that selects anything. |
| Lookup.ScanDepth | src/go/types/lookup.go:104-205 | The entries of one depth are visited in order. A collision returns a path that selects something, while another path of the same length selects something too. Otherwise the state is consistent. Every entry is either shadowed, or settled (no match, its embedded types collected). A match is on one entry, which is not a multiple and offers nothing else, and every other unshadowed entry has no match. |
| Lookup.VisitEntry | src/go/types/lookup.go:105-148 | A named type already seen at a shallower depth is skipped, and the state is unchanged. A type seen for the first time is recorded. The visit either collides or leaves a consistent state. That state keeps an existing match, makes a first match on this entry, or expands the entry. |
| Lookup.VisitNamed | src/go/types/lookup.go:110-146 | A named type seen for the first time is added to the seen set. Its declared methods are tried first. Then its underlying type is tried, unless that is a type parameter, which contributes nothing. |
| Lookup.VisitUnderlying | src/go/types/lookup.go:148-204 | The type-parameter flag is cleared, then the switch on the underlying type: struct fields, interface methods, or a type parameter's constraint methods. Only a struct adds entries for the next depth. No match means the entry is fully expanded. |
| Lookup.VisitMethodSet | src/go/types/lookup.go:181-203 | An interface or a type parameter's constraint: its method is a match or a collision. It collides exactly when a method has the identity and something already matched at this depth or the entry is a multiple. No matching method leaves the state as it was. |
| Lookup.MatchMethods | src/go/types/lookup.go:124-136 | A method with the given identity is found exactly when lookupMethod finds one. A found method collides exactly when something already matched at this depth or the entry is marked as a multiple. A collision gives a path with another selecting path beside it. Otherwise the method becomes the match, and the entry offers nothing else. No match leaves the state unchanged. |
| Lookup.CollisionHere | src/go/types/lookup.go:129-131 | A match on an entry, when a match was already made at its depth or the entry is reached along another path, is a collision: some other path of the same length selects something. |
| Lookup.ScanFields | src/go/types/lookup.go:150-179 | A field with the given identity is a match, and a second one is a collision. A matching field always collides when something already matched at this depth or the entry is a multiple. A collision needs a matching field. Embedded fields are collected for the next depth, with their index path and pointer flag, only while nothing matched. A struct with no matching field is fully expanded. |
| Lookup.VisitField | src/go/types/lookup.go:152-178 | One field of the struct loop collides exactly when it matches and a match was already made or the entry is a multiple. Otherwise it keeps the field-loop invariant: matches are recorded, embedded fields collected. |
| Lookup.FieldsDone | src/go/types/lookup.go:150-179 | After the last field: a match made in the loop is on the only matching field. With no match, every embedded field was collected. |
| Lookup.Conclude | src/go/types/lookup.go:207-221 | A match for a pointer-receiver method (not through a type parameter), reached without indirection on a non-addressable operand, needs an address. Otherwise it is found. Either way the result is sound. |
| Lookup.NextDepth | src/go/types/lookup.go:222-223 | With no match at this depth, the consolidated collected entries are the next depth. They keep the invariant and decrease the measure. |
| Lookup.AdvanceDepth | src/go/types/lookup.go:222-223 | After a depth with no match, the depth invariant holds for the consolidated entries at the next depth. |
| Lookup.AdvanceMultiples | src/go/types/lookup.go:168-177 | An entry marked as a multiple at the next depth is reached along another path of its length. The mark was either inherited from the entry it was collected from, or set by consolidation because an identical type was collected twice. |
| Lookup.AdvanceSingles | src/go/types/lookup.go:223 | An unmarked entry after consolidation is the only path of its length to its type, among the paths that do not reach that type more shallowly. |
| Lookup.NothingLeft | src/go/types/lookup.go:226 | When no entries are left, no type reachable from T has the entry: not found is correct. |
| Lookup.Consolidate | src/go/types/lookup.go:223 | The collected entries are consolidated, giving `Consolidated(next)`. |
| Lookup.Concat | src/go/types/lookup.go:431-435 | `concat(list, i)` is `list` followed by `i`: every depth extends an index path by exactly one. |
| Lookup.FieldIndex | src/go/types/lookup.go:438-447 | The first field with the given package and name, or -1 when there is none. The blank name always gives -1. |
| TypeGraph.MethodIndex | src/go/types/lookup.go:450-459 | The first method with the given identity, or -1 exactly when none has it or the name is blank. |
| TypeGraph.MethodIndexFrom | src/go/types/lookup.go:452-457 | The scan of lookupMethod from position k: the first match at or after k, or -1 iff there is none. |
| Lookup.LookupMethod | src/go/types/lookup.go:450-459 | Returns the index and the method found, or (-1, nil) exactly when no method has the identity or the name is blank. |
| Lookup.MissingMethodFastPath | src/go/types/lookup.go:299-303 | An interface without methods is implemented by every type: no missing method and no wrong type. The full comparison is needed exactly otherwise. |
| Lookup.FoundHere | src/go/types/lookup.go:129-134 | An entry selecting an object at index i is a match on the entry's path extended by i. |
| Lookup.PushEmbedded | src/go/types/lookup.go:172-177 | Collecting an embedded field appends the field's child entry. It is reached along the path extended by the field's index, with the pointer flag or'ed in and the multiple mark inherited. Entries already collected are kept, and no two collected entries share a path. |
| Lookup.NoFieldMatches | src/go/types/lookup.go:150-179 | A struct with no field of the identity, and its embedded fields collected, has no match and is expanded. |
| Lookup.EntryDone | src/go/types/lookup.go:105-205 | Visiting one more entry of a depth keeps the entry loop's invariant. The seen set grows only by the entries visited. While nothing matched, every visited entry is settled. A match is on the one entry that offers it. |
| Embedding.ConsolidateMultiples | src/go/types/lookup.go:240-258 | In-place compaction: the first n array entries become `Consolidated(old list)`. |
| Embedding.Absorb | src/go/types/lookup.go:244-255 | One turn of the loop. An entry whose type is already kept marks that kept entry as a multiple. A new one moves down to the write position and is recorded in the map. |
| Embedding.LookupType | src/go/types/lookup.go:260-273 | A type identical to one in the map is found, with that key's position. The type itself as a key is tried first, and gives its own position. Not found iff no key is identical. |
| Embedding.ConsolidatedNoDup | src/go/types/lookup.go:240-258 | No two entries of the consolidated list have identical types. |
| Embedding.ConsolidatedCovers | src/go/types/lookup.go:240-258 | Every entry of the input has an entry of identical type in the consolidated list. |
| Embedding.ConsolidatedEntries | src/go/types/lookup.go:240-258 | Each consolidated entry is the first of its class, with type, path and pointer flag unchanged. It is marked exactly when it was already a multiple or another entry has an identical type. Input order is kept, and the result is no longer than the input. |
| Embedding.ConsolidatedShort | src/go/types/lookup.go:240-258 | A list of at most one entry is already consolidated. |
| Embedding.ConsolidateStep | src/go/types/lookup.go:244-255 | The reference function advances exactly as the loop body does, for both the found and the new case, and the map keeps indexing the kept prefix. |
| Embedding.IdentSymmetric | src/go/types/lookup.go:260-273 | Identity of types, as lookupType uses it, is symmetric. |
| Embedding.IdentTransitive | src/go/types/lookup.go:260-273 | Identity of types is transitive. |
| TypeGraph.ReachFromPointer | src/go/types/lookup.go:74-88 | When T is a pointer, everything reached from it is reached indirectly. |
| TypeGraph.IdentSameMatch | src/go/types/lookup.go:260-273 | Identical types offer the same fields and methods, so keeping one entry per class loses no match. |
| TypeGraph.IdentSameWalk | src/go/types/lookup.go:240-258 | Identical types lead to the same types along every non-empty path. |
| TypeGraph.NoMatchAnywhereFrom | src/go/types/lookup.go:226 | No match above depth d, with every type at depth d reachable more shallowly, means no match anywhere. |
| TypeGraph.ShortcutAll | src/go/types/lookup.go:108-114 | A named type seen at a shallower depth: everything reached through it later is reachable along a shorter path. |
| TypeGraph.WalkConcat | src/go/types/lookup.go:172-177 | Following the path p and then q is following p + q. |
| NamedTypes.Resolved | src/go/types/named.go:39-57 | A pending resolver installs its type parameters, underlying type and methods, and sets fromRHS to the underlying type. With no resolver, or already resolved, the state is unchanged (both directions). |
| NamedTypes.ResolvedIdempotent | src/go/types/named.go:39-57 | Resolving twice is resolving once: the resolver runs at most once per Named. |
| NamedTypes.Universe.Resolve | src/go/types/named.go:39-57 | Exactly this Named is replaced by its resolved state; nothing else changes. |
| NamedTypes.Universe.Underlying | src/go/types/named.go:136 | The result is the underlying type after resolution, and the Named is resolved. |
| NamedTypes.Universe.NewNamed | src/go/types/named.go:32-37 | A Named as underlying type panics and allocates nothing. Otherwise there is one new Named, its own original, recorded as the type of its type name unless that already has one. Nothing is queued. |
| NamedTypes.Universe.NewNamedIn | src/go/types/named.go:60-86 | Appends the new Named (its own original unless one is given). The type name takes it if it has no type. With a checker, the expansion check is queued at the end of `later`. |
| NamedTypes.Universe.NewFunc | src/go/types/named.go:259 | Appends one function object with the given identity and signature. |
| NamedTypes.Universe.SetUnderlying | src/go/types/named.go:118-126 | nil panics and a Named panics, both leaving the arena alone. Otherwise the type is resolved and its underlying type is replaced. |
| NamedTypes.Universe.AddMethod | src/go/types/named.go:129-134 | After resolution, m is appended exactly when no method with its package and name is there (`WithMethod`). |
| NamedTypes.WithMethod | src/go/types/named.go:129-134 | The method list is unchanged if it has m's identity, and is extended by m otherwise. |
| NamedTypes.WithMethodKeepsUnique | src/go/types/named.go:129-134 | A list without duplicates stays without duplicates, and afterwards m's identity is found unless it is blank. |
| NamedTypes.Universe.Under | src/go/types/named.go:148-214 | A non-named underlying type is returned unchanged (Invalid for nil). Otherwise a type without a checker panics. Otherwise the chain from n0 is unique; a cyclic chain reports `path[i:]` once and gives Invalid; every written member reads as the result, which is never a Named; a member from another package panics after some members were written, all of them from the checker's package, so the foreign member is left unwritten. |
| NamedTypes.Universe.UnderChain | src/go/types/named.go:170-213 | The part of under after the first Named: the walk and the writes, with the same results as Under. |
| NamedTypes.Universe.WalkChain | src/go/types/named.go:175-200 | The loop: the chain is the unique chain from n0. The result is `ChainResult`. The keys of `seen` are the members to write. The cycle, if any, is reported once. Every member is resolved. |
| NamedTypes.Universe.WalkStep | src/go/types/named.go:180-199 | One round either closes a cycle, ends at a non-named type, or extends the chain by one member, keeping the loop invariant. |
| NamedTypes.Universe.CloseCycle | src/go/types/named.go:183-187 | A repeated member closes a cyclic chain. The reported cycle is `path[i:]`, from the first repeated member. |
| NamedTypes.Universe.Advance | src/go/types/named.go:182-199 | Stepping to the next member resolves it. A nil or non-named underlying type ends a non-cyclic chain. A Named continues it. |
| NamedTypes.Universe.ResolveNext | src/go/types/named.go:189 | `n.Underlying()` inside the loop resolves n and returns its underlying type as first read. |
| NamedTypes.Universe.WriteUnderlying | src/go/types/named.go:202-213 | Writes the result into every member of seen, in any order. Succeeds iff all are from the checker's package. The first foreign member panics after a subset has been written. Every member written is from the checker's package, so the foreign one is left unwritten. |
| NamedTypes.ChainResult | src/go/types/named.go:155-193 | The result of under is never a Named and never nil. It is Invalid for a cycle, and otherwise the final underlying type (Invalid when that is nil). |
| NamedTypes.Written | src/go/types/named.go:202-211 | The members under writes: every member except the last, plus the last exactly when the chain is cyclic. |
| NamedTypes.CycleReport | src/go/types/named.go:183-186 | One cycle is reported for a cyclic chain, none otherwise. |
| NamedTypes.SettledChain | src/go/types/named.go:202-213 | After the write, every written member reads as the result, which is not a Named, so a second under returns it at once. |
| NamedTypes.ChainUnique | src/go/types/named.go:178-200 | From a given start there is only one chain: under's walk is determined. |
| NamedTypes.WalkCycleReport | src/go/types/named.go:183-186 | The cycle reported when the chain closes on member i is the path of objects from i on. |
| NamedTypes.CycleKeys | src/go/types/named.go:183-187 | A repeat closes the chain into a cycle on the member recorded in seen, and seen holds exactly the members to write. |
| NamedTypes.WalkEnd | src/go/types/named.go:190-195 | A chain ending at a non-named underlying type is not cyclic, and all members except the last are written. |
| NamedTypes.WalkExtend | src/go/types/named.go:196-199 | A Named not yet seen extends the chain, and the arena has room for it, so the loop terminates. |
| NamedTypes.ResolveAllKeepsUnderlying | src/go/types/named.go:39-57 | Resolving other types changes no underlying type as read after resolution. |
| NamedTypes.Universe.RunUnderCheck | src/go/types/named.go:76-83 | The queued check runs under, then drops the Named's checker: a Named whose underlying type is already final is only stripped of its checker. One still checked follows its chain like under: the chain starts at n, its cycles are reported, and the chain is resolved and settled. The check succeeds exactly when every written link belongs to the checker's package. Otherwise it stops with under's panic, and only a part of the chain is settled, all of it from the checker's package. A Named left unexpanded without a checker stops with under's incompleteness panic. The `*Named` panic of line 80 cannot occur, because under never returns a Named. |
| NamedTypes.Universe.ExpandNamed | src/go/types/named.go:239-288 | The original is resolved first. A type-argument count mismatch gives Invalid and no methods. Otherwise the original's underlying type and one fresh placeholder per original method, with the same identity and receiver kind. Placeholders are queued for completion with a checker, and completed at once without one; a completion panic is reported. |
| NamedTypes.Universe.ExpandMethods | src/go/types/named.go:251-285 | The matching-count branch of expandNamed: the placeholders, and their completion later or at once. |
| NamedTypes.Universe.NewInstanceMethods | src/go/types/named.go:254-266 | One new function per original method: same identity and receiver kind, no type, receiver the instance. |
| NamedTypes.Universe.CompleteAll | src/go/types/named.go:274-285 | Completes each placeholder in turn. Success means each got its completion's signature and was coloured black. A panic is the completion panic of some placeholder. |
| NamedTypes.Universe.CompleteMethod | src/go/types/named.go:290-321 | With no pending receiver it panics. Otherwise it clears the receiver, colours the method black and sets its type to the completion's signature, or panics with the completion's reason. No other function changes. |
| NamedTypes.Universe.InstanceSignature | src/go/types/named.go:296-320 | Computes exactly `Completion`: the assertions on type arguments and the original method, then the signature. |
| NamedTypes.CompletionMeaning | src/go/types/named.go:296-308 | Completion succeeds only for an instance with type arguments whose original declares the method. Without type arguments, or without the method, it is a failed assertion. |
| NamedTypes.InstanceSig | src/go/types/named.go:305-320 | On a receiver-parameter count mismatch the original signature is kept. Otherwise the receiver becomes the instance. |
| NamedTypes.CompletionFrame | src/go/types/named.go:299-304 | Completion reads only the original's methods, so changes to other functions do not affect it. |
| TypeStrings.RelativeTo | src/cmd/compile/internal/types2/typestring.go:30-40 | nil iff the package is nil. Otherwise members of the package are unqualified, and every other package is qualified by its path. |
| TypeStrings.PackagePrefix | src/cmd/compile/internal/types2/typestring.go:18-21 | The qualifier's text for the package, `qf(pkg)`, or the package path when the qualifier is nil. An empty text writes nothing; any other is followed by a dot. |
| TypeStrings.TypeWriter.constructor | src/cmd/compile/internal/types2/typestring.go:73-75 | newTypeWriter: a printer over buf with the given qualifier (nil or any function) and an empty seen stack. |
| TypeStrings.TypeWriter.Hasher | src/cmd/compile/internal/types2/typestring.go:77-80 | newTypeHasher: a hasher over buf with the environment's ids. |
| TypeStrings.TypeWriter.Byte | src/cmd/compile/internal/types2/typestring.go:82-94 | The new buffer is `ByteW`. When hashing, a blank becomes '#' and nothing follows. When printing, ',' and ';' are followed by one blank. Never panics. |
| TypeStrings.TypeWriter.String | src/cmd/compile/internal/types2/typestring.go:96-98 | Appends the string. |
| TypeStrings.TypeWriter.Error | src/cmd/compile/internal/types2/typestring.go:100-105 | Printing appends `<msg>`. Hashing panics with msg and writes nothing. |
| TypeStrings.TypeWriter.Typ | src/cmd/compile/internal/types2/typestring.go:107-277 | The state after writing is `TypW`. A type on the stack is a cycle error. `seen` is restored on exit, so sibling occurrences print normally. |
| TypeStrings.TypeWriter.Node | src/cmd/compile/internal/types2/typestring.go:114-276 | The type switch writes `NodeW`. |
| TypeStrings.TypeWriter.StructType | src/cmd/compile/internal/types2/typestring.go:140-162 | `struct{`, the fields separated by ';' (name unless embedded, then type, then quoted tag if any), then `}`. |
| TypeStrings.TypeWriter.UnionType | src/cmd/compile/internal/types2/typestring.go:175-190 | An empty union is an error. Otherwise the terms, separated by '\|', each with its '~'. |
| TypeStrings.TypeWriter.InterfaceType | src/cmd/compile/internal/types2/typestring.go:192-210 | `interface{`, the methods, the embedded types after a ';' unless nothing came before, then `}`. |
| TypeStrings.TypeWriter.InterfaceMethods | src/cmd/compile/internal/types2/typestring.go:196-202 | The methods, separated by ';', each its name and signature. |
| TypeStrings.TypeWriter.InterfaceEmbeddeds | src/cmd/compile/internal/types2/typestring.go:203-209 | The embedded types, each after a ';' unless it is the first and no method came before. |
| TypeStrings.TypeWriter.ChanType | src/cmd/compile/internal/types2/typestring.go:218-242 | The direction's keyword. `chan (<-chan T)` is parenthesised. An unknown direction is an error. |
| TypeStrings.TypeWriter.NamedType | src/cmd/compile/internal/types2/typestring.go:244-253 | The hash prefix, the qualified name, then the type arguments, or, when printing an uninstantiated generic type, its type parameters. |
| TypeStrings.TypeWriter.TypePrefix | src/cmd/compile/internal/types2/typestring.go:282-286 | When hashing, the environment's id of the type in decimal. When printing, nothing. |
| TypeStrings.TypeWriter.WritePackage | src/cmd/compile/internal/types2/typestring.go:329-331 | For a non-nil package, the qualifier's text followed by a dot, or nothing when the text is empty; a nil package writes nothing. |
| TypeStrings.TypeWriter.WriteTypeName | src/cmd/compile/internal/types2/typestring.go:328-333 | The package prefix, then the name. |
| TypeStrings.TypeWriter.TypeList | src/cmd/compile/internal/types2/typestring.go:288-297 | The types in brackets, separated by ','. |
| TypeStrings.TypeWriter.TParamList | src/cmd/compile/internal/types2/typestring.go:299-326 | The loop with `prev` writes `TParamListW`: bounds are written when the bound changes and at the end. |
| TypeStrings.TypeWriter.TParam | src/cmd/compile/internal/types2/typestring.go:307-320 | One parameter: the previous bound if it changes here, then ',' and the parameter. |
| TypeStrings.TypeWriter.Tuple | src/cmd/compile/internal/types2/typestring.go:335-368 | The variables in parentheses, separated by ','. Names only when printing. A variadic last parameter is written as `...elem`. |
| TypeStrings.TypeWriter.TupleVar | src/cmd/compile/internal/types2/typestring.go:339-365 | One variable after its separator: its name when printing, then its type. |
| TypeStrings.TypeWriter.Variadic | src/cmd/compile/internal/types2/typestring.go:348-362 | A slice is written as `...` and its element type. A string type is written as the type followed by `...`. Anything else is the error "expected string type". |
| TypeStrings.TypeWriter.Signature | src/cmd/compile/internal/types2/typestring.go:370-392 | The type parameters, then the parameters. No results writes nothing more. A single result that is unnamed, or any single result when hashing, writes a blank and a bare type. Otherwise a blank and a parenthesised tuple. |
| TypeStrings.TypeString | src/cmd/compile/internal/types2/typestring.go:45-49 | The text is `TypeText`, the printed type, and printing never panics. |
| TypeStrings.WriteType | src/cmd/compile/internal/types2/typestring.go:54-56 | buf followed by the type printed with any qualifier, nil or a function. |
| TypeStrings.WriteSignature | src/cmd/compile/internal/types2/typestring.go:62-64 | buf followed by the signature printed with any qualifier, nil or a function. |
| TypeStrings.Subscript | src/cmd/compile/internal/types2/typestring.go:395-408 | The backwards fill of the 32-rune buffer gives `SubscriptText(x)`, the decimal digits of x as U+2080..U+2089, most significant first. For example 0 gives one ₀. |
| TypeStrings.SubscriptRoundTrip | src/cmd/compile/internal/types2/typestring.go:395-408 | Decoding the subscript digits gives back x. |
| TypeStrings.SubscriptInjective | src/cmd/compile/internal/types2/typestring.go:395-408 | Two type parameter ids print the same subscript iff they are equal. |
| TypeStrings.SubscriptLength | src/cmd/compile/internal/types2/typestring.go:395-400 | A 64-bit id has 1 to 20 digits, so the 32-rune buffer never overflows. |
| TypeStrings.TParamListGrouped | src/cmd/compile/internal/types2/typestring.go:299-326 | tParamList writes the reference layout `GroupedW`: each maximal run of parameters sharing a bound is followed by that bound exactly once. |
| TypeStrings.HashSignatureIgnoresNames | src/cmd/compile/internal/types2/typestring.go:335-392 | Signatures that differ only in parameter and result names hash alike. |
| TypeStrings.CycleIsError | src/cmd/compile/internal/types2/typestring.go:108-113 | A type on the seen stack prints as `<cycle to T>`, and panics with "cycle to T" when hashing. |
| TypeStrings.TypW | src/cmd/compile/internal/types2/typestring.go:100-113 | Printing never panics. A panic, once raised, leaves the state alone. |
| IRGen.IRGen.Later | src/cmd/compile/internal/noder/irgen.go:175-177 | The task is appended to the queue, and the existing entries are unchanged. |
| IRGen.IRGen.Drain | src/cmd/compile/internal/noder/irgen.go:257-263 | The queue is empty afterwards. The tasks run are `RunOrder(old queue)`: front first, spawned tasks joining the back. |
| IRGen.RunOrderFifo | src/cmd/compile/internal/noder/irgen.go:257-263 | The queued tasks run first, in queue order. |
| IRGen.LaterRunsAfterQueued | src/cmd/compile/internal/noder/irgen.go:257-263 | Tasks queued while draining run after all tasks already in the queue. |
| IRGen.RunOrderRunsAll | src/cmd/compile/internal/noder/irgen.go:257-263 | Draining runs every task and every spawned task exactly once. |
| IRGen.IRGen.Generate | src/cmd/compile/internal/noder/irgen.go:257-315 | The tail of generate: the drain, then the -complete report. When that report has errors, generate exits before removing anything (`base.ExitIfErrors`). Otherwise the generic functions are removed. The later queue is empty at the end, which is the Assertf, assuming the passes left out of this model queue nothing. |
| IRGen.IRGen.ReportMissingBodies | src/cmd/compile/internal/noder/irgen.go:284-292 | The errors are `MissingBodies`: the positions of function declarations with no body and no linkname. |
| IRGen.MissingBodiesMeaning | src/cmd/compile/internal/noder/irgen.go:284-292 | A position is reported iff its declaration misses a body. Positions are strictly increasing, so each is reported once, in order. |
| IRGen.IRGen.RemoveGenericFuncs | src/cmd/compile/internal/noder/irgen.go:303-313 | The declaration list becomes `Keep(old list)`. |
| IRGen.Compact | src/cmd/compile/internal/noder/irgen.go:306-313 | The write index j: the kept declarations move to the front of the array, in order. |
| IRGen.KeepOnlyKept | src/cmd/compile/internal/noder/irgen.go:308 | Only declarations that are not generic functions remain. |
| IRGen.KeepCounts | src/cmd/compile/internal/noder/irgen.go:307-312 | Every kept declaration keeps its number of occurrences, and every removed one has none left. |
| IRGen.KeepAppend | src/cmd/compile/internal/noder/irgen.go:307-312 | Filtering a concatenation is concatenating the filtered parts, so relative order is preserved. |
| IRGen.KeepIdempotent | src/cmd/compile/internal/noder/irgen.go:303-313 | Removing generic functions a second time changes nothing. |
| IRGen.NewDictInfo | src/cmd/compile/internal/noder/irgen.go:100-128 | The sections are kept as given, and 0 <= startSubDict <= startItabConv <= dictLen. The sub-dictionary and itab sections have their own lengths. |
| IRGen.DictLayout | src/cmd/compile/internal/noder/irgen.go:100-128 | The entries, in order, are shape parameters, derived types, sub-dictionary calls and itab conversions. startSubDict and startItabConv index the starts of the last two sections, and dictLen counts all entries. |
| GcToolchain.RemoveDashN | src/cmd/go/internal/work/gc.go:147-158 | The shortened slice is `WithoutDashN(old flags)`. |
| GcToolchain.DashNStep | src/cmd/go/internal/work/gc.go:151-156 | One turn: drop `-N` (copy, shorten, i--) or keep the flag. One more original flag is scanned. |
| GcToolchain.ShiftLeft | src/cmd/go/internal/work/gc.go:153 | `copy(a[i:], a[i+1:])`: the elements after i move one place left; the rest is unchanged. |
| GcToolchain.WithoutDashNCounts | src/cmd/go/internal/work/gc.go:147-158 | No `-N` remains, and every other flag keeps its number of occurrences. |
| GcToolchain.WithoutDashNAppend | src/cmd/go/internal/work/gc.go:147-158 | The filter distributes over concatenation, so the kept flags are in order. |
| GcToolchain.WithoutDashNIdentity | src/cmd/go/internal/work/gc.go:147-158 | Flags without `-N` are unchanged. |
| GcToolchain.GcBackendConcurrency | src/cmd/go/internal/work/gc.go:214-285 | Fatal iff GO19CONCURRENTCOMPILATION is not "0", "1" or unset. An unsafe flag, concurrency off, or a blocking experiment gives 1. Otherwise GOMAXPROCS when -p is 1, min(4, GOMAXPROCS) otherwise. |
| GcToolchain.SetExtld | src/cmd/go/internal/work/gc.go:558-570 | Flags already choosing the linker are returned unchanged. Otherwise exactly one `-extld=` flag with the joined compiler is appended, or the join's error is returned. |
| GcToolchain.SetExtldOnce | src/cmd/go/internal/work/gc.go:558-570 | The appended list names the external linker exactly once. |
| GcToolchain.PkgPath | src/cmd/go/internal/work/gc.go:56-65 | pluginPath in plugin mode; "main" for a main package not forced to be a library; the import path otherwise. |
| GcToolchain.PkgPathNeverPseudo | src/cmd/go/internal/work/gc.go:56-65 | A plugin is never given the pseudo path `command-line-arguments`. Outside plugin mode the path is "main" or the import path. |
| GcToolchain.PluginPath | src/cmd/go/internal/work/gc.go:579-607 | A real import path is kept. Command-line files give `plugin/unnamed-` followed by the digest. |
| GcToolchain.NameField | src/cmd/go/internal/work/gc.go:527-532 | The name field is exactly 16 bytes: the name cut to 16 bytes, or the name padded with blanks. |
| GcToolchain.NameFieldRoundTrip | src/cmd/go/internal/work/gc.go:527-532 | A name of at most 16 bytes, not ending in a blank, is read back unchanged with the padding trimmed. |
| GcToolchain.MemberLayout | src/cmd/go/internal/work/gc.go:527-548 | A member has a 60-byte header starting with its name field, then its contents. With the zero byte after an odd size, its length is even. |
| GcToolchain.HeaderLength | src/cmd/go/internal/work/gc.go:534-535 | The header with all its fields is 60 bytes when the size has at most 10 digits. |
| GcToolchain.LeftJustified | src/cmd/go/internal/work/gc.go:534-535 | `%-<w>d` keeps the digits in front, padded to at least w bytes. |
| GcToolchain.Ascii | src/cmd/go/internal/work/gc.go:534-535 | `%d` and `%o`: one ASCII digit per digit of the number, each within the base. |
| GcToolchain.PackInternal | src/cmd/go/internal/work/gc.go:507-555 | Success iff every file's content has its stat size. The archive then gains one member per file, in order. Otherwise the first disagreeing file stops packing with unexpected EOF (too short) or larger than stat (too long). |
| Numerals.Digits | src/cmd/compile/internal/types2/typestring.go:395-408 | The digits of n, most significant first: at least one, each below the base, no leading zero unless n is 0. |
| Numerals.FromDigitsOfDigits | src/cmd/compile/internal/types2/typestring.go:395-408 | Reading the digits of n back gives n. |
| Numerals.Uint64DecimalDigits | src/cmd/compile/internal/types2/typestring.go:396 | A value below 2^64 has at most 20 decimal digits. |

## Left out

- `object.go`, `subst`, `validateTArgLen`, `typeSet`, `Identical`, `check.cycleError`, `check.objDecl` and the environment's hashing are not part of this model. How each is represented:
  - Type names, packages and functions are plain records.
  - `IsExported` tests only for an ASCII upper-case first letter.
  - Identity of types is `Ident`. A named type is identical only to its own handle, even when another handle holds an equal node. Two unnamed types are identical when their nodes are equal, so their component types are compared by handle and not by identity.
  - Substitution is the identity.
  - The type-argument check compares the two counts.
  - Reported cycles are appended to a log.
- Packages are compared by value; Go compares them by pointer.
- Lookup.LookupFieldOrMethod: embedding an alias of a struct literal (`type A = struct{ X int }; type S struct{ A }`) is not modelled. Well-formedness (`NodeWF`) requires every embedded field to dereference to a type that is not an unnamed struct. The termination measure of the depth loop counts named types not yet seen, and a depth of unnamed structs would not lower it. The same restriction holds for `LookupFieldOrMethodIn`, `SearchDepths` and the members below them.
- Lookup: a single type set per type parameter is modelled (its methods). Method sets of `typeSet().methods` and interface embedding are flattened into the node's method list.
- Lookup.MissingMethodFastPath: only the fast path for an interface without methods is modelled. The rest of `missingMethod` needs the unifier, which is outside this model.
- NamedTypes: the `sync.Once` of `resolve` is a `resolved` flag. The resolver itself is data: the triple it returns.
- NamedTypes: type parameter and type argument lists are their lengths only.
- NamedTypes.Universe.ExpandNamed: the environment hash, `typeForHash` and `bestEnv` are left out. With no substitution, the instance underlying type is the original's.
- NamedTypes.Universe.CompleteAll: the `m.instRecv != nil` test of the completion closure is not a branch here. Every placeholder still has its receiver when the closure runs, as the contract's precondition says.
- The concurrency and race conditions that motivate checks in under (issue 31749) are outside a sequential model.
- TypeStrings:
  - Runes are characters; the UTF-8 encoding of the buffer (subscript's 32-rune buffer is 96 bytes in Go) is not modelled.
  - `strconv.Quote` escaping is not modelled.
  - `writePackage`, `goTypeName`, `asBasic` and `isExported` are not part of this model. They are represented by the qualifier prefix, a fixed name per node kind, the node's own kind and an ASCII test.
- TypeStrings: hash mode's `env.idForType` is a function parameter from handles to ids.
- TypeStrings.TypeWriter.TParamList: a nil entry in a type parameter list (the `<NIL>` branch) is not modelled. Lists hold type parameters only, and every type parameter has a bound.
- TypeStrings: a nil tuple is treated as an empty one. External types are represented by their text, and cycles through them are not caught, as in the source. Hashing an unknown channel direction is a panic, because `error` panics in hash mode.
- IRGen:
  - Tasks are abstract: running one records its id and queues its spawned tasks.
  - `checkFiles`, the declaration passes, `processPragmas`, `validate`, `ir.Dump`, `DeclareUniverse` and `stencil()` are calls into other compiler parts and are not part of this model.
  - Errors are returned as positions, not printed.
- IRGen.IRGen.Generate: the skipped calls between the drain and the final assertion (`processPragmas`, `validate`, `DeclareUniverse`, `stencil()`) are assumed to queue no tasks with `later`. The empty queue at the end holds only under that assumption. `base.ExitIfErrors` is modelled as an exit before the removal when the -complete report has errors. Errors from the passes left out of this model are not seen, so they do not stop the removal.
- IRGen.NewDictInfo: the code that fills a dictInfo (stencil.go) is not part of this model. The offsets follow the record's documented layout. `shapeToBound`, `type2switchType` and `instInfo` are left out.
- GcToolchain: process execution, file I/O, `os.Stat`, `io.Copy`, `bufio` flushing and the SHA-1 hash are left out. The digest, the environment value, GOMAXPROCS, `-p`, the experiments and the result of `str.JoinAndQuoteFields` are parameters.
- GcToolchain: the rest of `gc`, `asmArgs`, `ld`, `ldShared` and `trimpath` are outside the modelled core.
