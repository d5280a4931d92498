/** Resolving Anchor IDL types to Borsh layouts. */
module IdlTypes {
  import opened Common

  // A type as it appears in an IDL; `Other` is anything the resolver rejects.
  datatype TypeSpec =
    | Scalar(name: string)
    | Defined(name: string)
    | Vec(item: TypeSpec)
    | Opt(item: TypeSpec)
    | Array(item: TypeSpec, length: int)
    | Other

  datatype Field = Field(name: string, spec: TypeSpec)

  datatype TypeKind = Struct(fields: seq<Field>) | OtherKind

  datatype TypeDef = TypeDef(name: string, kind: TypeKind)

  datatype Layout =
    | LScalar(name: string)
    | LStruct(fields: Fields)
    | LVec(item: Layout)
    | LOption(item: Layout)
    | LArray(length: int, item: Layout)

  // The named members of a struct, in order.
  datatype Fields = End | Member(name: string, layout: Layout, rest: Fields)

  const SCALARS := {"bool", "u8", "u16", "u32", "u64", "u128", "i8", "i16", "i32", "i64", "i128",
                    "bytes", "string", "pubkey", "publicKey"}

  const MAX_TYPE_DEPTH := 8

  // The first definition of a name.
  function Lookup(types: seq<TypeDef>, name: string): (r: Option<TypeKind>)
    ensures r.Some? ==> exists i :: 0 <= i < |types| && types[i] == TypeDef(name, r.value)
                                    && forall j :: 0 <= j < i ==> types[j].name != name
    ensures r.None? <==> forall i :: 0 <= i < |types| ==> types[i].name != name
  {
    if types == [] then None
    else if types[0].name == name then Some(types[0].kind)
    else Lookup(types[1..], name)
  }

  // ----- The resolver: cycle guard and depth cap -----

  function Resolve(spec: TypeSpec, types: seq<TypeDef>, seen: set<string>, depth: nat): Option<Layout>
    decreases Max(0, MAX_TYPE_DEPTH - depth), 0
  {
    if depth >= MAX_TYPE_DEPTH then None
    else match spec
      case Scalar(name) => if name in SCALARS then Some(LScalar(name)) else None
      case Defined(name) =>
        if name in seen then None
        else (match Lookup(types, name)
              case Some(Struct(fields)) =>
                (match ResolveFields(fields, types, seen + {name}, depth + 1)
                 case Some(fs) => Some(LStruct(fs))
                 case None => None)
              case _ => None)
      case Vec(item) => (match Resolve(item, types, seen, depth + 1) case Some(l) => Some(LVec(l)) case None => None)
      case Opt(item) => (match Resolve(item, types, seen, depth + 1) case Some(l) => Some(LOption(l)) case None => None)
      case Array(item, n) =>
        (match Resolve(item, types, seen, depth + 1) case Some(l) => Some(LArray(n, l)) case None => None)
      case Other => None
  }

  function ResolveFields(fields: seq<Field>, types: seq<TypeDef>, seen: set<string>, depth: nat): Option<Fields>
    decreases Max(0, MAX_TYPE_DEPTH - depth), 1 + |fields|
  {
    if fields == [] then Some(End)
    else match Resolve(fields[0].spec, types, seen, depth)
      case None => None
      case Some(l) =>
        match ResolveFields(fields[1..], types, seen, depth)
        case None => None
        case Some(rest) => Some(Member(fields[0].name, l, rest))
  }

  // build_anchor_event_struct
  function BuildStruct(fields: seq<Field>, types: seq<TypeDef>): Option<Layout> {
    match ResolveFields(fields, types, {}, 0)
    case Some(fs) => Some(LStruct(fs))
    case None => None
  }

  // ----- What a layout of a type is, by structure of the layout alone -----

  predicate IsLayoutOf(l: Layout, spec: TypeSpec, types: seq<TypeDef>)
    decreases l
  {
    match (l, spec)
    case (LScalar(n), Scalar(m)) => n == m && n in SCALARS
    case (LVec(i), Vec(s)) => IsLayoutOf(i, s, types)
    case (LOption(i), Opt(s)) => IsLayoutOf(i, s, types)
    case (LArray(n, i), Array(s, m)) => n == m && IsLayoutOf(i, s, types)
    case (LStruct(fs), Defined(name)) =>
      (match Lookup(types, name)
       case Some(Struct(fields)) => AreLayoutsOf(fs, fields, types)
       case _ => false)
    case _ => false
  }

  predicate AreLayoutsOf(fs: Fields, fields: seq<Field>, types: seq<TypeDef>)
    decreases fs
  {
    match fs
    case End => fields == []
    case Member(name, l, rest) =>
      fields != [] && name == fields[0].name && IsLayoutOf(l, fields[0].spec, types)
      && AreLayoutsOf(rest, fields[1..], types)
  }

  function Height(l: Layout): nat
    decreases l
  {
    match l
    case LScalar(_) => 1
    case LVec(i) => 1 + Height(i)
    case LOption(i) => 1 + Height(i)
    case LArray(_, i) => 1 + Height(i)
    case LStruct(fs) => 1 + Heights(fs)
  }

  function Heights(fs: Fields): nat
    decreases fs
  {
    match fs
    case End => 0
    case Member(_, l, rest) => Max(Height(l), Heights(rest))
  }

  // ----- The resolver without its guard -----

  function Unguarded(spec: TypeSpec, types: seq<TypeDef>, depth: nat): Option<Layout>
    decreases Max(0, MAX_TYPE_DEPTH - depth), 0
  {
    if depth >= MAX_TYPE_DEPTH then None
    else match spec
      case Scalar(name) => if name in SCALARS then Some(LScalar(name)) else None
      case Defined(name) =>
        (match Lookup(types, name)
         case Some(Struct(fields)) =>
           (match UnguardedFields(fields, types, depth + 1) case Some(fs) => Some(LStruct(fs)) case None => None)
         case _ => None)
      case Vec(item) => (match Unguarded(item, types, depth + 1) case Some(l) => Some(LVec(l)) case None => None)
      case Opt(item) => (match Unguarded(item, types, depth + 1) case Some(l) => Some(LOption(l)) case None => None)
      case Array(item, n) =>
        (match Unguarded(item, types, depth + 1) case Some(l) => Some(LArray(n, l)) case None => None)
      case Other => None
  }

  function UnguardedFields(fields: seq<Field>, types: seq<TypeDef>, depth: nat): Option<Fields>
    decreases Max(0, MAX_TYPE_DEPTH - depth), 1 + |fields|
  {
    if fields == [] then Some(End)
    else match Unguarded(fields[0].spec, types, depth)
      case None => None
      case Some(l) =>
        match UnguardedFields(fields[1..], types, depth)
        case None => None
        case Some(rest) => Some(Member(fields[0].name, l, rest))
  }

  // Without the guard the resolver finds exactly the layouts not deeper than the cap.
  lemma {:induction false} UnguardedSound(spec: TypeSpec, types: seq<TypeDef>, depth: nat)
    ensures var r := Unguarded(spec, types, depth);
            r.Some? ==> IsLayoutOf(r.value, spec, types) && depth + Height(r.value) <= MAX_TYPE_DEPTH
    decreases Max(0, MAX_TYPE_DEPTH - depth), 0
  {
    if depth < MAX_TYPE_DEPTH {
      match spec
      case Defined(name) =>
        var k := Lookup(types, name);
        if k.Some? && k.value.Struct? {
          UnguardedFieldsSound(k.value.fields, types, depth + 1);
        }
      case Vec(item) => UnguardedSound(item, types, depth + 1);
      case Opt(item) => UnguardedSound(item, types, depth + 1);
      case Array(item, _) => UnguardedSound(item, types, depth + 1);
      case _ =>
    }
  }

  lemma {:induction false} UnguardedFieldsSound(fields: seq<Field>, types: seq<TypeDef>, depth: nat)
    ensures var r := UnguardedFields(fields, types, depth);
            r.Some? ==> && AreLayoutsOf(r.value, fields, types)
                        && (r.value != End ==> depth + Heights(r.value) <= MAX_TYPE_DEPTH)
    decreases Max(0, MAX_TYPE_DEPTH - depth), 1 + |fields|
  {
    if fields != [] {
      UnguardedSound(fields[0].spec, types, depth);
      UnguardedFieldsSound(fields[1..], types, depth);
    }
  }

  lemma {:induction false} UnguardedComplete(l: Layout, spec: TypeSpec, types: seq<TypeDef>, depth: nat)
    requires IsLayoutOf(l, spec, types) && depth + Height(l) <= MAX_TYPE_DEPTH
    ensures Unguarded(spec, types, depth) == Some(l)
    decreases l
  {
    match l
    case LScalar(_) =>
    case LVec(i) => UnguardedComplete(i, spec.item, types, depth + 1);
    case LOption(i) => UnguardedComplete(i, spec.item, types, depth + 1);
    case LArray(_, i) => UnguardedComplete(i, spec.item, types, depth + 1);
    case LStruct(fs) =>
      UnguardedFieldsComplete(fs, Lookup(types, spec.name).value.fields, types, depth + 1);
  }

  lemma {:induction false} UnguardedFieldsComplete(fs: Fields, fields: seq<Field>, types: seq<TypeDef>, depth: nat)
    requires AreLayoutsOf(fs, fields, types) && depth + Heights(fs) <= MAX_TYPE_DEPTH
    ensures UnguardedFields(fields, types, depth) == Some(fs)
    decreases fs
  {
    match fs
    case End =>
    case Member(_, l, rest) =>
      UnguardedComplete(l, fields[0].spec, types, depth);
      UnguardedFieldsComplete(rest, fields[1..], types, depth);
  }

  // ----- The guard never changes the answer -----

  // Resolving `name` at depth e can only succeed if resolving `spec` does at e + o.
  ghost predicate Needs(name: string, spec: TypeSpec, types: seq<TypeDef>, o: nat) {
    forall e: nat :: Unguarded(Defined(name), types, e).Some? ==> Unguarded(spec, types, e + o).Some?
  }

  // We are o > 0 levels inside the definition of every name in `seen`.
  ghost predicate Inside(seen: set<string>, spec: TypeSpec, types: seq<TypeDef>) {
    forall n :: n in seen ==> exists o: nat :: o > 0 && Needs(n, spec, types, o)
  }

  // A name that needs itself further down is resolved at no depth.
  lemma {:induction false} SelfNeedFails(name: string, types: seq<TypeDef>, o: nat, depth: nat)
    requires o > 0 && Needs(name, Defined(name), types, o)
    ensures Unguarded(Defined(name), types, depth).None?
    decreases Max(0, MAX_TYPE_DEPTH - depth)
  {
    if depth < MAX_TYPE_DEPTH {
      SelfNeedFails(name, types, o, depth + o);
    }
  }

  // If resolving `outer` at a depth needs `inner` one level down, so do all that need `outer`.
  lemma InsideStep(seen: set<string>, outer: TypeSpec, inner: TypeSpec, types: seq<TypeDef>)
    requires Inside(seen, outer, types)
    requires forall e: nat :: Unguarded(outer, types, e).Some? ==> Unguarded(inner, types, e + 1).Some?
    ensures Inside(seen, inner, types)
  {
    forall n | n in seen ensures exists o: nat :: o > 0 && Needs(n, inner, types, o) {
      var o: nat :| o > 0 && Needs(n, outer, types, o);
      forall e: nat | Unguarded(Defined(n), types, e).Some? ensures Unguarded(inner, types, e + (o + 1)).Some? {
        assert Unguarded(outer, types, e + o).Some?;
        assert Unguarded(inner, types, (e + o) + 1).Some?;
      }
      assert Needs(n, inner, types, o + 1);
    }
  }

  lemma {:induction false} FieldsNeedEach(fields: seq<Field>, types: seq<TypeDef>, depth: nat, i: nat)
    requires i < |fields| && UnguardedFields(fields, types, depth).Some?
    ensures Unguarded(fields[i].spec, types, depth).Some?
    decreases i
  {
    if i > 0 {
      FieldsNeedEach(fields[1..], types, depth, i - 1);
    }
  }

  // The fields of a struct are inside its name and everything its name is inside of.
  lemma InsideStruct(seen: set<string>, name: string, types: seq<TypeDef>, i: nat)
    requires Inside(seen, Defined(name), types)
    requires var k := Lookup(types, name); k.Some? && k.value.Struct? && i < |k.value.fields|
    ensures Inside(seen + {name}, Lookup(types, name).value.fields[i].spec, types)
  {
    var fields := Lookup(types, name).value.fields;
    var inner := fields[i].spec;
    forall e: nat | Unguarded(Defined(name), types, e).Some? ensures Unguarded(inner, types, e + 1).Some? {
      FieldsNeedEach(fields, types, e + 1, i);
    }
    InsideStep(seen, Defined(name), inner, types);
    assert Needs(name, inner, types, 1);
  }

  lemma {:induction false} GuardIsIrrelevant(spec: TypeSpec, types: seq<TypeDef>, seen: set<string>, depth: nat)
    requires Inside(seen, spec, types)
    ensures Resolve(spec, types, seen, depth) == Unguarded(spec, types, depth)
    decreases Max(0, MAX_TYPE_DEPTH - depth), 0
  {
    hide Inside;
    if depth < MAX_TYPE_DEPTH {
      match spec
      case Defined(name) =>
        if name in seen {
          SeenFails(seen, name, types, depth);
        } else {
          var k := Lookup(types, name);
          if k.Some? && k.value.Struct? {
            forall i | 0 <= i < |k.value.fields| ensures Inside(seen + {name}, k.value.fields[i].spec, types) {
              InsideStruct(seen, name, types, i);
            }
            FieldGuardIsIrrelevant(k.value.fields, types, seen + {name}, depth + 1);
          }
        }
      case Vec(item) =>
        InsideStep(seen, spec, item, types);
        GuardIsIrrelevant(item, types, seen, depth + 1);
      case Opt(item) =>
        InsideStep(seen, spec, item, types);
        GuardIsIrrelevant(item, types, seen, depth + 1);
      case Array(item, _) =>
        InsideStep(seen, spec, item, types);
        GuardIsIrrelevant(item, types, seen, depth + 1);
      case _ =>
    }
  }

  lemma SeenFails(seen: set<string>, name: string, types: seq<TypeDef>, depth: nat)
    requires name in seen && Inside(seen, Defined(name), types)
    ensures Unguarded(Defined(name), types, depth).None?
  {
    var o: nat :| o > 0 && Needs(name, Defined(name), types, o);
    SelfNeedFails(name, types, o, depth);
  }

  lemma {:induction false} FieldGuardIsIrrelevant(fields: seq<Field>, types: seq<TypeDef>, seen: set<string>,
                                                  depth: nat)
    requires forall i :: 0 <= i < |fields| ==> Inside(seen, fields[i].spec, types)
    ensures ResolveFields(fields, types, seen, depth) == UnguardedFields(fields, types, depth)
    decreases Max(0, MAX_TYPE_DEPTH - depth), 1 + |fields|
  {
    hide Inside;
    if fields != [] {
      GuardIsIrrelevant(fields[0].spec, types, seen, depth);
      FieldGuardIsIrrelevant(fields[1..], types, seen, depth);
    }
  }

  // For every type table: the resolver answers as if it had no cycle guard, and
  // what it answers is the layout of the type if that exists and is at most
  // MAX_TYPE_DEPTH deep, and None otherwise.
  lemma ResolveIsExact(spec: TypeSpec, types: seq<TypeDef>, depth: nat, l: Layout)
    ensures Resolve(spec, types, {}, depth) == Unguarded(spec, types, depth)
    ensures Resolve(spec, types, {}, depth) == Some(l)
            <==> IsLayoutOf(l, spec, types) && depth + Height(l) <= MAX_TYPE_DEPTH
  {
    GuardIsIrrelevant(spec, types, {}, depth);
    UnguardedSound(spec, types, depth);
    if IsLayoutOf(l, spec, types) && depth + Height(l) <= MAX_TYPE_DEPTH {
      UnguardedComplete(l, spec, types, depth);
    }
  }

  // ----- The guard alone ends the recursion -----

  // The layout of a struct with these fields, within the depth cap.
  predicate IsStructOf(l: Layout, fields: seq<Field>, types: seq<TypeDef>) {
    l.LStruct? && AreLayoutsOf(l.fields, fields, types) && Heights(l.fields) <= MAX_TYPE_DEPTH
  }

  // An event's struct is the layout of its fields if each is resolvable within the
  // cap, and None otherwise.
  lemma BuildStructIsExact(fields: seq<Field>, types: seq<TypeDef>, l: Layout)
    ensures BuildStruct(fields, types) == Some(l) <==> IsStructOf(l, fields, types)
  {
    hide ResolveFields;
    FieldGuardIsIrrelevant(fields, types, {}, 0);
    UnguardedFieldsSound(fields, types, 0);
    if IsStructOf(l, fields, types) {
      UnguardedFieldsComplete(l.fields, fields, types, 0);
    }
  }

  function Names(types: seq<TypeDef>): set<string> {
    set d | d in types :: d.name
  }

  function Size(spec: TypeSpec): nat {
    match spec
    case Vec(i) => 1 + Size(i)
    case Opt(i) => 1 + Size(i)
    case Array(i, _) => 1 + Size(i)
    case _ => 0
  }

  function Sizes(fields: seq<Field>): nat {
    if fields == [] then 0 else 1 + Size(fields[0].spec) + Sizes(fields[1..])
  }

  // The resolver without the depth cap: defined for every table, because each
  // step uses up a name or shrinks the type.
  function Uncapped(spec: TypeSpec, types: seq<TypeDef>, seen: set<string>): Option<Layout>
    decreases |Names(types) - seen|, Size(spec)
  {
    match spec
    case Scalar(name) => if name in SCALARS then Some(LScalar(name)) else None
    case Defined(name) =>
      if name in seen then None
      else (match Lookup(types, name)
            case Some(Struct(fields)) =>
              FewerNames(types, seen, name);
              (match UncappedFields(fields, types, seen + {name})
               case Some(fs) => Some(LStruct(fs))
               case None => None)
            case _ => None)
    case Vec(item) => (match Uncapped(item, types, seen) case Some(l) => Some(LVec(l)) case None => None)
    case Opt(item) => (match Uncapped(item, types, seen) case Some(l) => Some(LOption(l)) case None => None)
    case Array(item, n) => (match Uncapped(item, types, seen) case Some(l) => Some(LArray(n, l)) case None => None)
    case Other => None
  }

  function UncappedFields(fields: seq<Field>, types: seq<TypeDef>, seen: set<string>): Option<Fields>
    decreases |Names(types) - seen|, Sizes(fields)
  {
    if fields == [] then Some(End)
    else match Uncapped(fields[0].spec, types, seen)
      case None => None
      case Some(l) =>
        match UncappedFields(fields[1..], types, seen)
        case None => None
        case Some(rest) => Some(Member(fields[0].name, l, rest))
  }

  lemma FewerNames(types: seq<TypeDef>, seen: set<string>, name: string)
    requires name !in seen && Lookup(types, name).Some?
    ensures |Names(types) - (seen + {name})| + 1 == |Names(types) - seen|
  {
    var d := TypeDef(name, Lookup(types, name).value);
    assert d in types && d.name in Names(types);
    assert Names(types) - seen == (Names(types) - (seen + {name})) + {name};
  }

  // What the cap leaves of an answer.
  function CutOff(full: Option<Layout>, depth: nat): Option<Layout> {
    if full.Some? && depth + Height(full.value) <= MAX_TYPE_DEPTH then full else None
  }

  function CutOffFields(full: Option<Fields>, depth: nat): Option<Fields> {
    if full.Some? && (full.value == End || depth + Heights(full.value) <= MAX_TYPE_DEPTH) then full else None
  }

  lemma {:induction false} CapOnlyCuts(spec: TypeSpec, types: seq<TypeDef>, seen: set<string>, depth: nat)
    ensures Resolve(spec, types, seen, depth) == CutOff(Uncapped(spec, types, seen), depth)
    decreases |Names(types) - seen|, Size(spec)
  {
    match spec
    case Defined(name) =>
      hide Resolve, Uncapped;
      var k := Lookup(types, name);
      if name !in seen && k.Some? && k.value.Struct? {
        FewerNames(types, seen, name);
        CapOnlyCutsFields(k.value.fields, types, seen + {name}, depth + 1);
      }
      CutDefined(name, types, seen, depth);
    case Vec(item) => CapOnlyCuts(item, types, seen, depth + 1);
    case Opt(item) => CapOnlyCuts(item, types, seen, depth + 1);
    case Array(item, _) => CapOnlyCuts(item, types, seen, depth + 1);
    case _ =>
  }

  lemma CutDefined(name: string, types: seq<TypeDef>, seen: set<string>, depth: nat)
    requires var k := Lookup(types, name);
             name !in seen && k.Some? && k.value.Struct? ==>
               ResolveFields(k.value.fields, types, seen + {name}, depth + 1)
               == CutOffFields(UncappedFields(k.value.fields, types, seen + {name}), depth + 1)
    ensures Resolve(Defined(name), types, seen, depth) == CutOff(Uncapped(Defined(name), types, seen), depth)
  {
    hide Lookup, ResolveFields, UncappedFields, Names;
  }

  lemma {:induction false} CapOnlyCutsFields(fields: seq<Field>, types: seq<TypeDef>, seen: set<string>, depth: nat)
    ensures ResolveFields(fields, types, seen, depth) == CutOffFields(UncappedFields(fields, types, seen), depth)
    decreases |Names(types) - seen|, Sizes(fields)
  {
    if fields != [] {
      CapOnlyCuts(fields[0].spec, types, seen, depth);
      CapOnlyCutsFields(fields[1..], types, seen, depth);
    }
  }
}
