/** The canonical form of a Module definition, and which definition may follow another. */
module Schema {
  import opened Options
  import opened Sorting

  datatype Json =
    | Null
    | Bool(b: bool)
    | Num(n: int)
    | Str(s: string)
    | Arr(items: seq<Json>)
    | Obj(fields: map<string, Json>)

  /** json.dumps with sorted keys; all that is used of it is that different values print differently. */
  type Dumps = Json -> string

  ghost predicate Injective(dumps: Dumps) {
    forall a, b :: dumps(a) == dumps(b) ==> a == b
  }

  function ByText(dumps: Dumps): (Json, Json) -> bool {
    (a, b) => TextLe(dumps(a), dumps(b))
  }

  lemma ByTextIsOrder(dumps: Dumps)
    requires Injective(dumps)
    ensures TotalOrder(ByText(dumps))
  {
    TextLeIsOrder();
  }

  /** What a field name says about its value: the index of a type, a list whose order means nothing, or neither. */
  datatype Kind = Reference | Unordered | Plain

  function FieldKind(name: string): Kind {
    if name == "Ref" || name == "product_type_ref" || name == "ty" then Reference
    else if name == "indexes" || name == "constraints" || name == "sequences" || name == "default_values" || name == "entries" then Unordered
    else Plain
  }

  /** The printer, and how field names are told apart; the source uses FieldKind. */
  datatype Format = Format(dumps: Dumps, kind: string -> Kind)

  type Names = map<int, Json>

  /** None where the source raises: a reference that names no type, or an unordered field that is not a list. */
  function Normalize(format: Format, names: Names, v: Json): Option<Json>
    decreases v, 0
  {
    match v
    case Obj(fields) =>
      if forall k | k in fields :: NormalizeField(format, names, k, fields[k]).Some?
      then Some(Obj(map k | k in fields :: NormalizeField(format, names, k, fields[k]).value))
      else None
    case Arr(items) =>
      if forall i | 0 <= i < |items| :: Normalize(format, names, items[i]).Some?
      then Some(Arr(seq(|items|, i requires 0 <= i < |items| => Normalize(format, names, items[i]).value)))
      else None
    case _ => Some(v)
  }

  function NormalizeField(format: Format, names: Names, name: string, item: Json): Option<Json>
    decreases item, 1
  {
    match format.kind(name)
    case Reference => if item.Num? && item.n in names then Some(names[item.n]) else None
    case Unordered =>
      (match Normalize(format, names, item)
       case Some(normalized) => SortList(format.dumps, normalized)
       case None => None)
    case Plain => Normalize(format, names, item)
  }

  /** list.sort; only lists have it. */
  function SortList(dumps: Dumps, v: Json): Option<Json> {
    if v.Arr? then Some(Arr(Sort(v.items, ByText(dumps)))) else None
  }

  // ----- the same value under another numbering of the types

  ghost predicate Same(kind: string -> Kind, sigma: map<int, int>, v: Json, w: Json)
    decreases v, 0
  {
    match v
    case Obj(f) => w.Obj? && f.Keys == w.fields.Keys && forall k | k in f :: SameField(kind, sigma, k, f[k], w.fields[k])
    case Arr(a) => w.Arr? && |a| == |w.items| && forall i | 0 <= i < |a| :: Same(kind, sigma, a[i], w.items[i])
    case _ => v == w
  }

  ghost predicate SameField(kind: string -> Kind, sigma: map<int, int>, name: string, v: Json, w: Json)
    decreases v, 3
  {
    match kind(name)
    case Reference => v.Num? && w.Num? && v.n in sigma && w.n == sigma[v.n]
    case Unordered => SameElements(kind, sigma, v, w)
    case Plain => Same(kind, sigma, v, w)
  }

  ghost predicate SameElements(kind: string -> Kind, sigma: map<int, int>, v: Json, w: Json)
    decreases v, 2
  {
    exists perm :: SameShuffled(kind, sigma, v, w, perm)
  }

  /** Two lists with the same elements, in the order perm gives. */
  ghost predicate SameShuffled(kind: string -> Kind, sigma: map<int, int>, v: Json, w: Json, perm: seq<nat>)
    decreases v, 1
  {
    && v.Arr? && w.Arr? && |v.items| == |w.items| && Permutation(perm, |v.items|)
    && forall i | 0 <= i < |w.items| :: Same(kind, sigma, v.items[perm[i]], w.items[i])
  }

  /** sigma takes each type to the type with its name. */
  ghost predicate Follows(sigma: map<int, int>, names: Names, others: Names) {
    && sigma.Keys == names.Keys
    && (forall i | i in sigma :: sigma[i] in others && others[sigma[i]] == names[i])
    && (forall i, j | i in others && j in others && others[i] == others[j] :: i == j)
  }

  lemma SortedListsAgree(dumps: Dumps, a: seq<Json>, b: seq<Json>)
    requires Injective(dumps)
    ensures SortList(dumps, Arr(a)) == SortList(dumps, Arr(b)) <==> multiset(a) == multiset(b)
  {
    ByTextIsOrder(dumps);
    SortIsCanonical(a, b, ByText(dumps));
  }

  /** Equal normal forms are exactly what renumbering and reshuffling give. */
  lemma {:induction false} SameIffNormal(format: Format, names: Names, others: Names, sigma: map<int, int>, v: Json, w: Json)
    requires Injective(format.dumps) && Follows(sigma, names, others)
    requires Normalize(format, names, v).Some? && Normalize(format, others, w).Some?
    ensures Same(format.kind, sigma, v, w) <==> Normalize(format, names, v) == Normalize(format, others, w)
    decreases v, 0
  {
    var x, y := Normalize(format, names, v).value, Normalize(format, others, w).value;
    match v
    case Obj(f) =>
      if w.Obj? && f.Keys == w.fields.Keys {
        forall k | k in f
          ensures SameField(format.kind, sigma, k, f[k], w.fields[k]) <==> x.fields[k] == y.fields[k]
        {
          SameFieldIffNormal(format, names, others, sigma, k, f[k], w.fields[k]);
        }
        assert x.fields.Keys == y.fields.Keys == f.Keys;
        assert x == y <==> x.fields == y.fields;
      } else if w.Obj? {
        assert x.fields.Keys == f.Keys && y.fields.Keys == w.fields.Keys;
      }
    case Arr(a) =>
      if w.Arr? && |a| == |w.items| {
        forall i | 0 <= i < |a|
          ensures Same(format.kind, sigma, a[i], w.items[i]) <==> x.items[i] == y.items[i]
        {
          SameIffNormal(format, names, others, sigma, a[i], w.items[i]);
        }
        assert x == y <==> x.items == y.items;
      } else if w.Arr? {
        assert |x.items| == |a| && |y.items| == |w.items|;
      }
    case _ =>
  }

  lemma UnorderedIsList(format: Format, names: Names, name: string, v: Json)
    requires format.kind(name) == Unordered && NormalizeField(format, names, name, v).Some?
    ensures v.Arr? && Normalize(format, names, v).Some?
    ensures NormalizeField(format, names, name, v) == SortList(format.dumps, Normalize(format, names, v).value)
  {
  }

  lemma {:induction false} SameFieldIffNormal(format: Format, names: Names, others: Names, sigma: map<int, int>, name: string, v: Json, w: Json)
    requires Injective(format.dumps) && Follows(sigma, names, others)
    requires NormalizeField(format, names, name, v).Some? && NormalizeField(format, others, name, w).Some?
    ensures SameField(format.kind, sigma, name, v, w) <==> NormalizeField(format, names, name, v) == NormalizeField(format, others, name, w)
    decreases v, 2
  {
    match format.kind(name)
    case Reference =>
    case Unordered =>
      UnorderedIsList(format, names, name, v);
      UnorderedIsList(format, others, name, w);
      ShuffledIffNormal(format, names, others, sigma, v, w);
    case Plain =>
      SameIffNormal(format, names, others, sigma, v, w);
  }

  lemma ShuffledIffMultiset(kind: string -> Kind, sigma: map<int, int>, v: Json, w: Json, x: seq<Json>, y: seq<Json>)
    requires v.Arr? && w.Arr? && |v.items| == |x| && |w.items| == |y|
    requires forall i, j | 0 <= i < |x| && 0 <= j < |y| :: Same(kind, sigma, v.items[i], w.items[j]) <==> x[i] == y[j]
    ensures SameElements(kind, sigma, v, w) <==> multiset(x) == multiset(y)
  {
    if perm :| SameShuffled(kind, sigma, v, w, perm) {
      forall i | 0 <= i < |y| ensures y[i] == x[perm[i]] {
        assert Same(kind, sigma, v.items[perm[i]], w.items[i]);
      }
      RearrangedMultisets(x, y, perm);
    }
    if multiset(x) == multiset(y) {
      var perm := MultisetsRearrange(x, y);
      assert SameShuffled(kind, sigma, v, w, perm);
    }
  }

  lemma {:induction false} ShuffledIffNormal(format: Format, names: Names, others: Names, sigma: map<int, int>, v: Json, w: Json)
    requires Injective(format.dumps) && Follows(sigma, names, others)
    requires Normalize(format, names, v).Some? && Normalize(format, others, w).Some?
    requires v.Arr? && w.Arr?
    ensures SameElements(format.kind, sigma, v, w)
       <==> SortList(format.dumps, Normalize(format, names, v).value) == SortList(format.dumps, Normalize(format, others, w).value)
    decreases v, 1
  {
    var x, y := Normalize(format, names, v).value.items, Normalize(format, others, w).value.items;
    SortedListsAgree(format.dumps, x, y);
    forall i, j | 0 <= i < |v.items| && 0 <= j < |w.items|
      ensures Same(format.kind, sigma, v.items[i], w.items[j]) <==> x[i] == y[j]
    {
      SameIffNormal(format, names, others, sigma, v.items[i], w.items[j]);
    }
    ShuffledIffMultiset(format.kind, sigma, v, w, x, y);
  }

  // ----- Module definitions

  /** The types by index, their names, and every other section. */
  datatype Definition = Definition(types: seq<Json>, names: Names, sections: map<string, Json>)

  function Field(v: Json, name: string): Option<Json> {
    if v.Obj? && name in v.fields then Some(v.fields[name]) else None
  }

  function Items(v: Option<Json>): Option<seq<Json>> {
    if v.Some? && v.value.Arr? then Some(v.value.items) else None
  }

  /** One dictionary from a list of them; a later section replaces an earlier one. */
  function Merge(sections: seq<Json>): Option<map<string, Json>> {
    if sections == [] then Some(map[])
    else
      var n := |sections| - 1;
      var before := Merge(sections[..n]);
      if before.Some? && sections[n].Obj? then Some(before.value + sections[n].fields) else None
  }

  function NamesOf(items: seq<Json>): Option<Names> {
    if items == [] then Some(map[])
    else
      var n := |items| - 1;
      match (NamesOf(items[..n]), Field(items[n], "ty"), Field(items[n], "source_name"))
      case (Some(before), Some(Num(ty)), Some(name)) => Some(before[ty := name])
      case _ => None
  }

  /** The names are those of the types 0 to n - 1. */
  predicate Covers(names: Names, n: nat) {
    (forall i | 0 <= i < n :: i in names) && (forall i | i in names :: 0 <= i < n)
  }

  /** None where the source raises: another format, a missing section, or a type without a name. */
  function ReadDefinition(schema: Json): Option<Definition> {
    if !(schema.Obj? && schema.fields.Keys == {"V10"}) then None
    else
      match Items(Field(schema.fields["V10"], "sections"))
      case None => None
      case Some(list) =>
        match Merge(list)
        case None => None
        case Some(sections) =>
          if "Typespace" !in sections || "Types" !in sections then None
          else
            match (Items(Field(sections["Typespace"], "types")), Items(Some(sections["Types"])))
            case (Some(types), Some(items)) =>
              var names := NamesOf(items);
              if names.Some? && Covers(names.value, |types|)
              then Some(Definition(types, names.value, sections - {"Typespace"}))
              else None
            case _ => None
  }

  ghost predicate EveryTypeNamed(d: Definition) {
    Covers(d.names, |d.types|) && "Typespace" !in d.sections
  }

  ghost predicate DistinctNames(d: Definition) {
    forall i, j | i in d.names && j in d.names && d.names[i] == d.names[j] :: i == j
  }

  function CanonicalSection(format: Format, names: Names, v: Json): Option<Json> {
    match Normalize(format, names, v)
    case None => None
    case Some(normalized) => if v.Arr? then SortList(format.dumps, normalized) else Some(normalized)
  }

  predicate Normalizes(format: Format, d: Definition) {
    && (forall i | 0 <= i < |d.types| :: Normalize(format, d.names, d.types[i]).Some?)
    && (forall k | k in d.sections :: CanonicalSection(format, d.names, d.sections[k]).Some?)
  }

  /** A dictionary built entry by entry. */
  function Table(keys: seq<string>, values: seq<Json>): map<string, Json>
    requires |keys| == |values|
  {
    if keys == [] then map[]
    else var n := |keys| - 1; Table(keys[..n], values[..n])[keys[n] := values[n]]
  }

  function TypeKeys(format: Format, d: Definition): (keys: seq<string>)
    requires EveryTypeNamed(d)
    ensures |keys| == |d.types| && forall i | 0 <= i < |keys| :: keys[i] == format.dumps(d.names[i])
  {
    seq(|d.types|, i requires 0 <= i < |d.types| => format.dumps(d.names[i]))
  }

  function TypeForms(format: Format, d: Definition): (forms: seq<Json>)
    requires Normalizes(format, d)
    ensures |forms| == |d.types| && forall i | 0 <= i < |forms| :: Normalize(format, d.names, d.types[i]) == Some(forms[i])
  {
    seq(|d.types|, i requires 0 <= i < |d.types| => Normalize(format, d.names, d.types[i]).value)
  }

  function SectionForms(format: Format, d: Definition): map<string, Json>
    requires Normalizes(format, d)
  {
    map k | k in d.sections :: CanonicalSection(format, d.names, d.sections[k]).value
  }

  function CanonicalOf(format: Format, d: Definition): Option<map<string, Json>>
    requires EveryTypeNamed(d)
  {
    if Normalizes(format, d)
    then Some(SectionForms(format, d)["Typespace" := Obj(Table(TypeKeys(format, d), TypeForms(format, d)))])
    else None
  }

  function CanonicalSchema(dumps: Dumps, schema: Json): Option<map<string, Json>> {
    match ReadDefinition(schema)
    case None => None
    case Some(d) => CanonicalOf(Format(dumps, FieldKind), d)
  }

  /** sigma renumbers the types of d so that it becomes e, up to the order of unordered lists. */
  ghost predicate Renumbers(kind: string -> Kind, sigma: map<int, int>, d: Definition, e: Definition)
    requires EveryTypeNamed(d) && EveryTypeNamed(e)
  {
    && Follows(sigma, d.names, e.names)
    && Onto(sigma, e.names)
    && (forall i | i in sigma :: Same(kind, sigma, d.types[i], e.types[sigma[i]]))
    && d.sections.Keys == e.sections.Keys
    && (forall k | k in d.sections :: SameSection(kind, sigma, d.sections[k], e.sections[k]))
  }

  /** A section that is a list is unordered as a whole. */
  ghost predicate SameSection(kind: string -> Kind, sigma: map<int, int>, v: Json, w: Json) {
    if v.Arr? then SameElements(kind, sigma, v, w) else Same(kind, sigma, v, w)
  }

  lemma SectionIff(format: Format, names: Names, others: Names, sigma: map<int, int>, v: Json, w: Json)
    requires Injective(format.dumps) && Follows(sigma, names, others)
    requires CanonicalSection(format, names, v).Some? && CanonicalSection(format, others, w).Some?
    ensures SameSection(format.kind, sigma, v, w) <==> CanonicalSection(format, names, v) == CanonicalSection(format, others, w)
  {
    ListsStayLists(format, names, v);
    ListsStayLists(format, others, w);
    if v.Arr? && w.Arr? {
      ShuffledIffNormal(format, names, others, sigma, v, w);
    } else if v.Arr? {
      assert !SameElements(format.kind, sigma, v, w);
    } else {
      SameIffNormal(format, names, others, sigma, v, w);
    }
  }

  lemma ListsStayLists(format: Format, names: Names, v: Json)
    requires CanonicalSection(format, names, v).Some?
    ensures Normalize(format, names, v).Some? && (CanonicalSection(format, names, v).value.Arr? <==> v.Arr?)
  {
  }

  ghost predicate Distinct(keys: seq<string>) {
    forall i, j | 0 <= i < j < |keys| :: keys[i] != keys[j]
  }

  lemma {:induction false} TableHolds(keys: seq<string>, values: seq<Json>)
    requires |keys| == |values| && Distinct(keys)
    ensures forall i | 0 <= i < |keys| :: keys[i] in Table(keys, values) && Table(keys, values)[keys[i]] == values[i]
    ensures forall key | key in Table(keys, values) :: key in keys
  {
    if keys != [] {
      var n := |keys| - 1;
      TableHolds(keys[..n], values[..n]);
      assert forall i | 0 <= i < n :: keys[..n][i] == keys[i] && values[..n][i] == values[i];
    }
  }

  lemma TablesAgree(keys: seq<string>, values: seq<Json>, others: seq<string>, forms: seq<Json>)
    requires |keys| == |values| && |others| == |forms| && Distinct(keys) && Distinct(others)
    requires forall key :: key in keys <==> key in others
    ensures Table(keys, values) == Table(others, forms)
       <==> forall i, j | 0 <= i < |keys| && 0 <= j < |others| && keys[i] == others[j] :: values[i] == forms[j]
  {
    TableHolds(keys, values);
    TableHolds(others, forms);
    var t, u := Table(keys, values), Table(others, forms);
    if forall i, j | 0 <= i < |keys| && 0 <= j < |others| && keys[i] == others[j] :: values[i] == forms[j] {
      forall key | key in t ensures key in u && t[key] == u[key] {
        assert key in keys && key in others;
        var i :| 0 <= i < |keys| && keys[i] == key;
        var j :| 0 <= j < |others| && others[j] == key;
        assert values[i] == forms[j];
      }
      assert t.Keys == u.Keys;
    }
  }

  /** The renumbering that the names dictate. */
  lemma NamesGiveNumbers(names: Names, others: Names) returns (sigma: map<int, int>)
    requires forall i | i in names :: exists j :: j in others && others[j] == names[i]
    requires forall i, j | i in others && j in others && others[i] == others[j] :: i == j
    ensures Follows(sigma, names, others)
  {
    sigma := map i | i in names :: var j :| j in others && others[j] == names[i]; j;
  }

  lemma SigmaIsOnto(sigma: map<int, int>, names: Names, others: Names)
    requires Follows(sigma, names, others)
    requires forall j | j in others :: exists i :: i in names && names[i] == others[j]
    ensures Onto(sigma, others)
  {
    forall j | j in others ensures exists i :: i in sigma && sigma[i] == j {
      var i :| i in names && names[i] == others[j];
      assert i in sigma && sigma[i] == j;
    }
  }

  lemma TypeKeysDistinct(format: Format, d: Definition)
    requires Injective(format.dumps) && EveryTypeNamed(d) && DistinctNames(d)
    ensures Distinct(TypeKeys(format, d))
  {
    var keys := TypeKeys(format, d);
    forall i, j | 0 <= i < j < |keys| ensures keys[i] != keys[j] {
      assert d.names[i] != d.names[j];
    }
  }

  ghost predicate Onto(sigma: map<int, int>, others: Names) {
    forall j | j in others :: exists i :: i in sigma && sigma[i] == j
  }

  /** Type i of one definition and type j of the other are printed alike exactly when sigma takes i to j. */
  lemma KeysFollowSigma(format: Format, d: Definition, e: Definition, sigma: map<int, int>)
    requires Injective(format.dumps) && EveryTypeNamed(d) && EveryTypeNamed(e)
    requires Follows(sigma, d.names, e.names) && Onto(sigma, e.names)
    ensures forall i, j | 0 <= i < |d.types| && 0 <= j < |e.types| ::
              TypeKeys(format, d)[i] == TypeKeys(format, e)[j] <==> sigma[i] == j
    ensures forall key :: key in TypeKeys(format, d) <==> key in TypeKeys(format, e)
  {
    var keys, others := TypeKeys(format, d), TypeKeys(format, e);
    forall key | key in keys ensures key in others {
      var i :| 0 <= i < |keys| && keys[i] == key;
      assert others[sigma[i]] == key;
    }
    forall key | key in others ensures key in keys {
      var j :| 0 <= j < |others| && others[j] == key;
      assert j in e.names;
      var i :| i in sigma && sigma[i] == j;
      assert keys[i] == key;
    }
  }

  lemma TypespacesAgree(format: Format, d: Definition, e: Definition, sigma: map<int, int>)
    requires Injective(format.dumps) && EveryTypeNamed(d) && EveryTypeNamed(e) && DistinctNames(d) && DistinctNames(e)
    requires Normalizes(format, d) && Normalizes(format, e) && Follows(sigma, d.names, e.names) && Onto(sigma, e.names)
    ensures Table(TypeKeys(format, d), TypeForms(format, d)) == Table(TypeKeys(format, e), TypeForms(format, e))
       <==> forall i | i in sigma :: Same(format.kind, sigma, d.types[i], e.types[sigma[i]])
  {
    TypeKeysDistinct(format, d);
    TypeKeysDistinct(format, e);
    KeysFollowSigma(format, d, e, sigma);
    var forms, others := TypeForms(format, d), TypeForms(format, e);
    TablesAgree(TypeKeys(format, d), forms, TypeKeys(format, e), others);
    forall i | i in sigma
      ensures Same(format.kind, sigma, d.types[i], e.types[sigma[i]]) <==> forms[i] == others[sigma[i]]
    {
      SameIffNormal(format, d.names, e.names, sigma, d.types[i], e.types[sigma[i]]);
    }
  }

  /** Equal typespaces have the same names. */
  lemma TypespacesNameAlike(format: Format, d: Definition, e: Definition)
    requires Injective(format.dumps) && EveryTypeNamed(d) && EveryTypeNamed(e) && DistinctNames(d) && DistinctNames(e)
    requires Normalizes(format, d) && Normalizes(format, e)
    requires Table(TypeKeys(format, d), TypeForms(format, d)).Keys == Table(TypeKeys(format, e), TypeForms(format, e)).Keys
    ensures forall i | i in d.names :: exists j :: j in e.names && e.names[j] == d.names[i]
  {
    TypeKeysDistinct(format, d);
    TypeKeysDistinct(format, e);
    TableHolds(TypeKeys(format, d), TypeForms(format, d));
    TableHolds(TypeKeys(format, e), TypeForms(format, e));
    forall i | i in d.names ensures exists j :: j in e.names && e.names[j] == d.names[i] {
      assert TypeKeys(format, d)[i] in TypeKeys(format, e);
      var j :| 0 <= j < |e.types| && TypeKeys(format, e)[j] == TypeKeys(format, d)[i];
      assert j in e.names && e.names[j] == d.names[i];
    }
  }

  ghost predicate SectionFormsAgree(format: Format, d: Definition, e: Definition) {
    && d.sections.Keys == e.sections.Keys
    && forall k | k in d.sections ::
      CanonicalSection(format, d.names, d.sections[k]) == CanonicalSection(format, e.names, e.sections[k])
  }

  lemma SectionsAgree(format: Format, d: Definition, e: Definition, sigma: map<int, int>)
    requires Injective(format.dumps) && Follows(sigma, d.names, e.names) && Normalizes(format, d) && Normalizes(format, e)
    ensures SectionFormsAgree(format, d, e)
       <==> d.sections.Keys == e.sections.Keys
            && forall k | k in d.sections :: SameSection(format.kind, sigma, d.sections[k], e.sections[k])
  {
    if d.sections.Keys == e.sections.Keys {
      forall k | k in d.sections
        ensures SameSection(format.kind, sigma, d.sections[k], e.sections[k])
           <==> CanonicalSection(format, d.names, d.sections[k]) == CanonicalSection(format, e.names, e.sections[k])
      {
        SectionIff(format, d.names, e.names, sigma, d.sections[k], e.sections[k]);
      }
    }
  }

  lemma AddedKey(a: map<string, Json>, b: map<string, Json>, key: string, v: Json, w: Json)
    requires key !in a && key !in b
    ensures a[key := v] == b[key := w] <==> a == b && v == w
  {
    if a[key := v] == b[key := w] {
      assert a[key := v][key] == v && b[key := w][key] == w;
      assert a == a[key := v] - {key} && b == b[key := w] - {key};
    }
  }

  /** Two canonical forms agree when their typespaces and their other sections do. */
  lemma CanonicalParts(format: Format, d: Definition, e: Definition)
    requires EveryTypeNamed(d) && EveryTypeNamed(e) && Normalizes(format, d) && Normalizes(format, e)
    ensures CanonicalOf(format, d) == CanonicalOf(format, e)
       <==> Table(TypeKeys(format, d), TypeForms(format, d)) == Table(TypeKeys(format, e), TypeForms(format, e))
            && SectionFormsAgree(format, d, e)
  {
    var c, f := SectionForms(format, d), SectionForms(format, e);
    assert c.Keys == d.sections.Keys && f.Keys == e.sections.Keys;
    AddedKey(c, f, "Typespace", Obj(Table(TypeKeys(format, d), TypeForms(format, d))),
             Obj(Table(TypeKeys(format, e), TypeForms(format, e))));
    if c == f {
      forall k | k in d.sections
        ensures CanonicalSection(format, d.names, d.sections[k]) == CanonicalSection(format, e.names, e.sections[k])
      {
        assert c[k] == f[k];
      }
    }
  }

  /** Two definitions share a canonical form exactly when one is the other with its types renumbered
      and its unordered collections reordered. Columns and variants keep their order. */
  lemma CanonicalIff(format: Format, d: Definition, e: Definition)
    requires Injective(format.dumps)
    requires EveryTypeNamed(d) && EveryTypeNamed(e) && DistinctNames(d) && DistinctNames(e)
    requires CanonicalOf(format, d).Some? && CanonicalOf(format, e).Some?
    ensures CanonicalOf(format, d) == CanonicalOf(format, e) <==> exists sigma :: Renumbers(format.kind, sigma, d, e)
  {
    if CanonicalOf(format, d) == CanonicalOf(format, e) {
      CanonicalParts(format, d, e);
      TypespacesNameAlike(format, d, e);
      TypespacesNameAlike(format, e, d);
      var sigma := NamesGiveNumbers(d.names, e.names);
      SigmaIsOnto(sigma, d.names, e.names);
      TypespacesAgree(format, d, e, sigma);
      SectionsAgree(format, d, e, sigma);
      assert Renumbers(format.kind, sigma, d, e);
    }
    if sigma :| Renumbers(format.kind, sigma, d, e) {
      TypespacesAgree(format, d, e, sigma);
      SectionsAgree(format, d, e, sigma);
      CanonicalParts(format, d, e);
    }
  }

  /** The same for the printed definitions the tool reads. */
  lemma CanonicalSchemaIff(dumps: Dumps, a: Json, b: Json)
    requires Injective(dumps)
    requires CanonicalSchema(dumps, a).Some? && CanonicalSchema(dumps, b).Some?
    requires DistinctNames(ReadDefinition(a).value) && DistinctNames(ReadDefinition(b).value)
    ensures CanonicalSchema(dumps, a) == CanonicalSchema(dumps, b)
       <==> exists sigma :: Renumbers(FieldKind, sigma, ReadDefinition(a).value, ReadDefinition(b).value)
  {
    CanonicalIff(Format(dumps, FieldKind), ReadDefinition(a).value, ReadDefinition(b).value);
  }

  // ----- which canonical definition may follow another

  type Canonical = map<string, Json>

  /** dict.get */
  function Get(m: map<string, Json>, key: string): Json {
    if key in m then m[key] else Null
  }

  /** The tables by name, the last of a name winning; None when an entry has no usable name. */
  function TablesByName(items: seq<Json>): Option<map<Json, Json>> {
    if items == [] then Some(map[])
    else
      var n := |items| - 1;
      match (TablesByName(items[..n]), Field(items[n], "source_name"))
      case (Some(before), Some(name)) => if name.Arr? || name.Obj? then None else Some(before[name := items[n]])
      case _ => None
  }

  function Tables(c: Canonical): Option<map<Json, Json>> {
    match Items(if "Tables" in c then Some(c["Tables"]) else None)
    case None => None
    case Some(items) => TablesByName(items)
  }

  predicate Truthy(v: Json) {
    match v
    case Null => false
    case Bool(b) => b
    case Num(n) => n != 0
    case Str(s) => s != ""
    case Arr(items) => items != []
    case Obj(fields) => fields != map[]
  }

  const PRIVATE := Obj(map["Private" := Arr([])])

  /** A table that may be added: private and not an event table. */
  predicate MayBeAdded(table: Json) {
    Field(table, "table_access") == Some(PRIVATE) && !(Field(table, "is_event").Some? && Truthy(Field(table, "is_event").value))
  }

  /** Every old entry is in the new list. */
  predicate Survives(previous: Json, current: Json) {
    previous.Arr? && forall entry | entry in previous.items :: current.Arr? && entry in current.items
  }

  predicate SectionFits(section: string, previous: Json, current: Json) {
    if section == "ExplicitNames" then
      && Field(previous, "entries").Some? && Field(current, "entries").Some?
      && Survives(Field(previous, "entries").value, Field(current, "entries").value)
    else if section == "Types" || section == "Reducers" then Survives(previous, current)
    else previous == current
  }

  /** True when compatible_schema returns True; the model does not tell its False from an exception. */
  predicate Compatible(previous: Canonical, current: Canonical) {
    && Tables(previous).Some? && Tables(current).Some?
    && "Typespace" in previous && previous["Typespace"].Obj?
    && "Typespace" in current && current["Typespace"].Obj?
    && var olds, news := Tables(previous).value, Tables(current).value;
    && (forall name | name in olds :: name in news && news[name] == olds[name])
    && (forall name | name in news && name !in olds :: MayBeAdded(news[name]))
    && (forall name | name in previous["Typespace"].fields ::
          Get(current["Typespace"].fields, name) == previous["Typespace"].fields[name])
    && (forall section | section in previous.Keys + current.Keys && section != "Tables" && section != "Typespace" ::
          SectionFits(section, Get(previous, section), Get(current, section)))
  }

  /** What compatible_schema can read. */
  predicate Readable(c: Canonical) {
    && Tables(c).Some?
    && "Typespace" in c && c["Typespace"].Obj?
    && forall section | section in c && section != "Tables" && section != "Typespace" :: SectionFits(section, c[section], c[section])
  }

  /** Publishing the same definition again is accepted whenever it can be read. */
  lemma CompatibleReflexive(c: Canonical)
    ensures Compatible(c, c) <==> Readable(c)
  {
    if Compatible(c, c) {
      forall section | section in c && section != "Tables" && section != "Typespace" ensures SectionFits(section, c[section], c[section]) {
        assert section in c.Keys + c.Keys;
      }
    }
  }

  lemma SectionFitsTransitive(section: string, a: Json, b: Json, c: Json)
    requires SectionFits(section, a, b) && SectionFits(section, b, c)
    ensures SectionFits(section, a, c)
  {
  }

  /** No named type is JSON null; the canonical form of an algebraic type never is. */
  ghost predicate NoNullType(c: Canonical) {
    "Typespace" in c && c["Typespace"].Obj? && forall name | name in c["Typespace"].fields :: c["Typespace"].fields[name] != Null
  }

  /** Two accepted publishes in a row would have been accepted in one step. */
  lemma CompatibleTransitive(a: Canonical, b: Canonical, c: Canonical)
    requires Compatible(a, b) && Compatible(b, c) && NoNullType(a)
    ensures Compatible(a, c)
  {
    forall name | name in a["Typespace"].fields ensures name in b["Typespace"].fields {
      assert Get(b["Typespace"].fields, name) == a["Typespace"].fields[name];
    }
    NamedComposes(a, b, c);
  }

  lemma NamedComposes(a: Canonical, b: Canonical, c: Canonical)
    requires Compatible(a, b) && Compatible(b, c) && forall name | name in a["Typespace"].fields :: name in b["Typespace"].fields
    ensures Compatible(a, c)
  {
    forall section | section in a.Keys + c.Keys && section != "Tables" && section != "Typespace"
      ensures SectionFits(section, Get(a, section), Get(c, section))
    {
      if section in a.Keys + b.Keys && section in b.Keys + c.Keys {
        SectionFitsTransitive(section, Get(a, section), Get(b, section), Get(c, section));
      }
    }
    forall name | name in a["Typespace"].fields
      ensures Get(c["Typespace"].fields, name) == a["Typespace"].fields[name]
    {
      assert Get(b["Typespace"].fields, name) == a["Typespace"].fields[name];
    }
  }

  /** A definition with the named type taken out or replaced. */
  function WithTypes(c: Canonical, fields: map<string, Json>): Canonical {
    c["Typespace" := Obj(fields)]
  }

  lemma TypesOnlyDiffer(c: Canonical, f: map<string, Json>, g: map<string, Json>)
    requires Readable(c) && forall name | name in f :: Get(g, name) == f[name]
    ensures Compatible(WithTypes(c, f), WithTypes(c, g))
  {
    var p, q := WithTypes(c, f), WithTypes(c, g);
    assert Tables(p) == Tables(q) == Tables(c);
    forall section | section in p.Keys + q.Keys && section != "Tables" && section != "Typespace"
      ensures SectionFits(section, Get(p, section), Get(q, section))
    {
      assert section in c && Get(p, section) == c[section] == Get(q, section);
    }
  }

  /** dict.get does not tell a null type from a missing one, so a chain through a definition that drops a
      null type can end where one step cannot. Composition is sound exactly when no type is null. */
  lemma CompatibleComposesIff(a: Canonical)
    requires Readable(a)
    ensures (forall b, c :: Compatible(a, b) && Compatible(b, c) ==> Compatible(a, c)) <==> NoNullType(a)
  {
    if NoNullType(a) {
      forall b, c | Compatible(a, b) && Compatible(b, c) ensures Compatible(a, c) {
        CompatibleTransitive(a, b, c);
      }
    } else {
      var fields := a["Typespace"].fields;
      var name :| name in fields && fields[name] == Null;
      var b, c := WithTypes(a, fields - {name}), WithTypes(a, fields[name := Num(0)]);
      assert WithTypes(a, fields) == a;
      TypesOnlyDiffer(a, fields, fields - {name});
      TypesOnlyDiffer(a, fields - {name}, fields[name := Num(0)]);
      assert Get(c["Typespace"].fields, name) == Num(0);
      assert Compatible(a, b) && Compatible(b, c) && !Compatible(a, c);
    }
  }

  // ----- canonical forms

  lemma {:induction false} TableKeys(keys: seq<string>, values: seq<Json>)
    requires |keys| == |values|
    ensures forall key :: key in Table(keys, values) <==> key in keys
    decreases |keys|
  {
    if |keys| > 0 {
      var n := |keys| - 1;
      TableKeys(keys[..n], values[..n]);
      assert keys == keys[..n] + [keys[n]];
    }
  }

  /** A canonical form has a null type exactly when the definition has one. */
  lemma NullTypesIff(format: Format, d: Definition)
    requires Injective(format.dumps) && EveryTypeNamed(d) && DistinctNames(d) && CanonicalOf(format, d).Some?
    ensures NoNullType(CanonicalOf(format, d).value) <==> forall i | 0 <= i < |d.types| :: d.types[i] != Null
  {
    var keys, forms := TypeKeys(format, d), TypeForms(format, d);
    TypeKeysDistinct(format, d);
    TableHolds(keys, forms);
    var c := CanonicalOf(format, d).value;
    assert c["Typespace"] == Obj(Table(keys, forms));
    forall i | 0 <= i < |d.types| ensures forms[i] == Null <==> d.types[i] == Null {
      NormalNull(format, d.names, d.types[i]);
    }
    if NoNullType(c) {
      forall i | 0 <= i < |d.types| ensures d.types[i] != Null {
        assert keys[i] in c["Typespace"].fields && c["Typespace"].fields[keys[i]] == forms[i];
      }
    } else {
      var name :| name in Table(keys, forms) && Table(keys, forms)[name] == Null;
      var i :| 0 <= i < |keys| && keys[i] == name;
      assert forms[i] == Null;
    }
  }

  lemma NormalNull(format: Format, names: Names, v: Json)
    ensures Normalize(format, names, v) == Some(Null) <==> v == Null
  {
  }

  /** A name comes from an entry. */
  lemma {:induction false} NamedBy(items: seq<Json>, i: int)
    requires NamesOf(items).Some? && i in NamesOf(items).value
    ensures exists k :: 0 <= k < |items| && Field(items[k], "ty") == Some(Num(i)) && Field(items[k], "source_name") == Some(NamesOf(items).value[i])
    decreases |items|
  {
    var n := |items| - 1;
    if Field(items[n], "ty") != Some(Num(i)) {
      NamedBy(items[..n], i);
      var k :| 0 <= k < n && Field(items[..n][k], "ty") == Some(Num(i)) && Field(items[..n][k], "source_name") == Some(NamesOf(items).value[i]);
      assert items[..n][k] == items[k];
    }
  }

  /** What a definition that was read holds of its type entries. */
  ghost predicate TypesRead(d: Definition) {
    && "Types" in d.sections && d.sections["Types"].Arr? && NamesOf(d.sections["Types"].items) == Some(d.names)
    && EveryTypeNamed(d)
  }

  lemma ReadTypes(schema: Json)
    requires ReadDefinition(schema).Some?
    ensures TypesRead(ReadDefinition(schema).value)
  {
  }

  lemma SortedElements(dumps: Dumps, items: seq<Json>)
    ensures forall x :: x in Sort(items, ByText(dumps)) <==> x in items
  {
    var sorted := Sort(items, ByText(dumps));
    SortPermutes(items, ByText(dumps));
    assert forall x :: x in sorted <==> x in multiset(sorted);
    assert forall x :: x in items <==> x in multiset(items);
  }

  /** The entries of a list section, in its canonical form. */
  lemma SectionEntries(format: Format, names: Names, v: Json, x: Json)
    requires v.Arr? && CanonicalSection(format, names, v).Some?
    ensures var section := CanonicalSection(format, names, v).value;
      section.Arr? && (x in section.items <==> exists k :: 0 <= k < |v.items| && Normalize(format, names, v.items[k]) == Some(x))
  {
    var normalized := Normalize(format, names, v).value;
    SortedElements(format.dumps, normalized.items);
    forall k | 0 <= k < |v.items| ensures Normalize(format, names, v.items[k]) == Some(normalized.items[k]) {
      assert normalized.items[k] in normalized.items;
    }
    if x in normalized.items {
      var k :| 0 <= k < |normalized.items| && normalized.items[k] == x;
      assert Normalize(format, names, v.items[k]) == Some(x);
    }
  }

  /** A type entry names its type in its canonical form too. */
  lemma EntryNames(format: Format, names: Names, entry: Json, x: Json)
    requires format.kind("ty") == Reference && Normalize(format, names, entry) == Some(x)
    ensures Field(entry, "ty").Some? <==> Field(x, "ty").Some?
    ensures Field(entry, "ty").Some? ==>
      Field(entry, "ty").value.Num? && Field(entry, "ty").value.n in names && Field(x, "ty").value == names[Field(entry, "ty").value.n]
  {
    if Field(entry, "ty").Some? {
      assert NormalizeField(format, names, "ty", entry.fields["ty"]).Some?;
    }
  }

  /** Where all type entries survive, all type names do. */
  lemma NamesSurvive(format: Format, d: Definition, e: Definition, i: int)
    requires format.kind("ty") == Reference && TypesRead(d) && TypesRead(e) && i in d.names
    requires CanonicalSection(format, d.names, d.sections["Types"]).Some? && CanonicalSection(format, e.names, e.sections["Types"]).Some?
    requires Survives(CanonicalSection(format, d.names, d.sections["Types"]).value, CanonicalSection(format, e.names, e.sections["Types"]).value)
    ensures exists j :: j in e.names && e.names[j] == d.names[i]
  {
    var items, others := d.sections["Types"].items, e.sections["Types"].items;
    NamedBy(items, i);
    var k :| 0 <= k < |items| && Field(items[k], "ty") == Some(Num(i));
    var x := Normalize(format, d.names, items[k]).value;
    SectionEntries(format, d.names, d.sections["Types"], x);
    SectionEntries(format, e.names, e.sections["Types"], x);
    EntryNames(format, d.names, items[k], x);
    var m :| 0 <= m < |others| && Normalize(format, e.names, others[m]) == Some(x);
    EntryNames(format, e.names, others[m], x);
  }

  lemma TypeSurvives(format: Format, d: Definition, e: Definition, name: string)
    requires format.kind("ty") == Reference && TypesRead(d) && TypesRead(e) && Normalizes(format, d) && Normalizes(format, e)
    requires Survives(CanonicalSection(format, d.names, d.sections["Types"]).value, CanonicalSection(format, e.names, e.sections["Types"]).value)
    requires name in TypeKeys(format, d)
    ensures name in TypeKeys(format, e)
  {
    var i :| 0 <= i < |d.types| && TypeKeys(format, d)[i] == name;
    NamesSurvive(format, d, e, i);
    var j :| j in e.names && e.names[j] == d.names[i];
    assert TypeKeys(format, e)[j] == name;
  }

  lemma CanonicalSections(format: Format, d: Definition)
    requires TypesRead(d) && CanonicalOf(format, d).Some?
    ensures var c := CanonicalOf(format, d).value;
      && Normalizes(format, d) && Get(c, "Types") == CanonicalSection(format, d.names, d.sections["Types"]).value
      && "Types" in c && "Typespace" in c && c["Typespace"].Obj?
      && forall name :: name in c["Typespace"].fields <==> name in TypeKeys(format, d)
  {
    TableKeys(TypeKeys(format, d), TypeForms(format, d));
  }

  /** Every type of an accepted canonical definition has its name in the next one. */
  lemma TypesAreNamed(dumps: Dumps, first: Json, second: Json)
    requires CanonicalSchema(dumps, first).Some? && CanonicalSchema(dumps, second).Some?
    requires Compatible(CanonicalSchema(dumps, first).value, CanonicalSchema(dumps, second).value)
    ensures var a, b := CanonicalSchema(dumps, first).value, CanonicalSchema(dumps, second).value;
      forall name | name in a["Typespace"].fields :: name in b["Typespace"].fields
  {
    var format := Format(dumps, FieldKind);
    var a, b := CanonicalSchema(dumps, first).value, CanonicalSchema(dumps, second).value;
    ReadTypes(first);
    ReadTypes(second);
    CanonicalSections(format, ReadDefinition(first).value);
    CanonicalSections(format, ReadDefinition(second).value);
    TypesFit(a, b);
    forall name | name in a["Typespace"].fields ensures name in b["Typespace"].fields {
      TypeSurvives(format, ReadDefinition(first).value, ReadDefinition(second).value, name);
    }
  }

  lemma TypesFit(a: Canonical, b: Canonical)
    requires Compatible(a, b) && "Types" in a
    ensures Survives(Get(a, "Types"), Get(b, "Types"))
  {
    assert "Types" in a.Keys + b.Keys && SectionFits("Types", Get(a, "Types"), Get(b, "Types"));
  }

  /** On canonical forms of definitions acceptance composes, null types or not: a type cannot be dropped, because its
      entry has to survive. */
  lemma CanonicalComposes(dumps: Dumps, first: Json, second: Json, c: Canonical)
    requires CanonicalSchema(dumps, first).Some? && CanonicalSchema(dumps, second).Some?
    requires Compatible(CanonicalSchema(dumps, first).value, CanonicalSchema(dumps, second).value)
    requires Compatible(CanonicalSchema(dumps, second).value, c)
    ensures Compatible(CanonicalSchema(dumps, first).value, c)
  {
    TypesAreNamed(dumps, first, second);
    NamedComposes(CanonicalSchema(dumps, first).value, CanonicalSchema(dumps, second).value, c);
  }

  /** A table whose name can be the key of a dictionary. */
  predicate HasName(table: Json) {
    Field(table, "source_name").Some? && !Field(table, "source_name").value.Arr? && !Field(table, "source_name").value.Obj?
  }

  /** A definition has a list of tables with names, reducers only as a list, and explicit names only with entries. */
  predicate Complete(sections: map<string, Json>) {
    && "Tables" in sections && sections["Tables"].Arr?
    && (forall i | 0 <= i < |sections["Tables"].items| :: HasName(sections["Tables"].items[i]))
    && ("Reducers" in sections ==> sections["Reducers"].Arr?)
    && ("ExplicitNames" in sections ==> Field(sections["ExplicitNames"], "entries").Some?)
  }

  lemma {:induction false} TablesByNameIff(items: seq<Json>)
    ensures TablesByName(items).Some? <==> forall x | x in items :: HasName(x)
    decreases |items|
  {
    if |items| > 0 {
      var n := |items| - 1;
      TablesByNameIff(items[..n]);
      assert items == items[..n] + [items[n]];
      assert forall x :: x in items <==> x in items[..n] || x == items[n];
      assert TablesByName(items).Some? <==> TablesByName(items[..n]).Some? && HasName(items[n]);
    }
  }

  lemma NameStays(format: Format, names: Names, v: Json, x: Json)
    requires format.kind("source_name") == Plain && Normalize(format, names, v) == Some(x)
    ensures HasName(x) <==> HasName(v)
  {
    if Field(v, "source_name").Some? {
      assert NormalizeField(format, names, "source_name", v.fields["source_name"]) ==
             Normalize(format, names, v.fields["source_name"]);
    }
  }

  lemma TablesIff(format: Format, names: Names, v: Json)
    requires format.kind("source_name") == Plain && v.Arr? && CanonicalSection(format, names, v).Some?
    ensures CanonicalSection(format, names, v).value.Arr?
    ensures TablesByName(CanonicalSection(format, names, v).value.items).Some? <==>
            forall i | 0 <= i < |v.items| :: HasName(v.items[i])
  {
    var items := CanonicalSection(format, names, v).value.items;
    TablesByNameIff(items);
    forall i | 0 <= i < |v.items| ensures exists x :: x in items && (HasName(x) <==> HasName(v.items[i])) {
      var x := Normalize(format, names, v.items[i]).value;
      SectionEntries(format, names, v, x);
      NameStays(format, names, v.items[i], x);
    }
    forall x | x in items ensures exists i :: 0 <= i < |v.items| && (HasName(x) <==> HasName(v.items[i])) {
      SectionEntries(format, names, v, x);
      var i :| 0 <= i < |v.items| && Normalize(format, names, v.items[i]) == Some(x);
      NameStays(format, names, v.items[i], x);
    }
  }

  lemma ExplicitNamesFit(format: Format, names: Names, v: Json)
    requires format.kind("entries") == Unordered && CanonicalSection(format, names, v).Some?
    ensures var x := CanonicalSection(format, names, v).value;
      SectionFits("ExplicitNames", x, x) <==> Field(v, "entries").Some?
  {
    var x := CanonicalSection(format, names, v).value;
    ListsStayLists(format, names, v);
    if v.Obj? && "entries" in v.fields {
      assert NormalizeField(format, names, "entries", v.fields["entries"]) == Some(x.fields["entries"]);
      UnorderedIsList(format, names, "entries", v.fields["entries"]);
    }
  }

  lemma ReducersFit(format: Format, names: Names, v: Json)
    requires CanonicalSection(format, names, v).Some?
    ensures var x := CanonicalSection(format, names, v).value;
      (SectionFits("Reducers", x, x) <==> v.Arr?) && (SectionFits("Types", x, x) <==> v.Arr?)
  {
    ListsStayLists(format, names, v);
  }

  /** The sections of a canonical form. */
  lemma SectionsOf(format: Format, d: Definition)
    requires EveryTypeNamed(d) && CanonicalOf(format, d).Some?
    ensures var c := CanonicalOf(format, d).value;
      && "Typespace" in c && c["Typespace"].Obj?
      && (forall k :: k in c <==> k == "Typespace" || k in d.sections)
      && forall k | k in d.sections :: Some(c[k]) == CanonicalSection(format, d.names, d.sections[k])
  {
  }

  lemma TablesRead(format: Format, d: Definition)
    requires EveryTypeNamed(d) && CanonicalOf(format, d).Some? && format.kind("source_name") == Plain
    ensures Tables(CanonicalOf(format, d).value).Some? <==>
      && "Tables" in d.sections && d.sections["Tables"].Arr?
      && forall i | 0 <= i < |d.sections["Tables"].items| :: HasName(d.sections["Tables"].items[i])
  {
    SectionsOf(format, d);
    if "Tables" in d.sections {
      ListsStayLists(format, d.names, d.sections["Tables"]);
      if d.sections["Tables"].Arr? {
        TablesIff(format, d.names, d.sections["Tables"]);
      }
    }
  }

  /** Which canonical forms can be read, and so published again: those of complete definitions. */
  lemma ReadableIff(dumps: Dumps, schema: Json)
    requires CanonicalSchema(dumps, schema).Some?
    ensures Readable(CanonicalSchema(dumps, schema).value) <==> Complete(ReadDefinition(schema).value.sections)
  {
    var format, d := Format(dumps, FieldKind), ReadDefinition(schema).value;
    var c := CanonicalOf(format, d).value;
    ReadTypes(schema);
    SectionsOf(format, d);
    TablesRead(format, d);
    SectionsReadable(format, d, c);
  }

  lemma SectionsReadable(format: Format, d: Definition, c: Canonical)
    requires TypesRead(d) && format.kind("entries") == Unordered && "Typespace" in c
    requires forall k :: k in c <==> k == "Typespace" || k in d.sections
    requires forall k | k in d.sections :: Some(c[k]) == CanonicalSection(format, d.names, d.sections[k])
    ensures (forall section | section in c && section != "Tables" && section != "Typespace" ::
               SectionFits(section, c[section], c[section])) <==>
      && ("Reducers" in d.sections ==> d.sections["Reducers"].Arr?)
      && ("ExplicitNames" in d.sections ==> Field(d.sections["ExplicitNames"], "entries").Some?)
  {
    ReducersFit(format, d.names, d.sections["Types"]);
    if "Reducers" in d.sections {
      ReducersFit(format, d.names, d.sections["Reducers"]);
    }
    if "ExplicitNames" in d.sections {
      ExplicitNamesFit(format, d.names, d.sections["ExplicitNames"]);
    }
  }

  /** The canonical forms of the definitions, each accepted after the one before. */
  ghost predicate AcceptedInTurn(dumps: Dumps, history: seq<Json>) {
    && (forall i | 0 <= i < |history| :: CanonicalSchema(dumps, history[i]).Some?)
    && forall i | 0 <= i < |history| - 1 ::
      Compatible(CanonicalSchema(dumps, history[i]).value, CanonicalSchema(dumps, history[i + 1]).value)
  }

  lemma {:induction false} ChainIsOneStep(dumps: Dumps, history: seq<Json>)
    requires |history| >= 2 && AcceptedInTurn(dumps, history)
    ensures Compatible(CanonicalSchema(dumps, history[0]).value, CanonicalSchema(dumps, history[|history| - 1]).value)
    decreases |history|
  {
    assert Compatible(CanonicalSchema(dumps, history[0]).value, CanonicalSchema(dumps, history[0 + 1]).value);
    if |history| > 2 {
      ChainIsOneStep(dumps, history[1..]);
      CanonicalComposes(dumps, history[0], history[1], CanonicalSchema(dumps, history[|history| - 1]).value);
    }
  }

  /** After any chain of accepted publishes every old table and type is as it was, every old type entry,
      reducer and explicit name is still there, and every table that came along is private and no event table. */
  lemma ChainKeepsOld(dumps: Dumps, history: seq<Json>)
    requires |history| >= 2 && AcceptedInTurn(dumps, history)
    ensures var first, last := CanonicalSchema(dumps, history[0]).value, CanonicalSchema(dumps, history[|history| - 1]).value;
      && Compatible(first, last)
      && (forall name | name in Tables(first).value :: name in Tables(last).value && Tables(last).value[name] == Tables(first).value[name])
      && (forall name | name in Tables(last).value && name !in Tables(first).value :: MayBeAdded(Tables(last).value[name]))
      && (forall name | name in first["Typespace"].fields ::
            Get(last["Typespace"].fields, name) == first["Typespace"].fields[name])
      && (forall section | section in first && section in {"Types", "Reducers"} :: Survives(first[section], Get(last, section)))
  {
    ChainIsOneStep(dumps, history);
    OldSections(CanonicalSchema(dumps, history[0]).value, CanonicalSchema(dumps, history[|history| - 1]).value);
  }

  lemma OldSections(first: Canonical, last: Canonical)
    requires Compatible(first, last)
    ensures forall section | section in first && section in {"Types", "Reducers"} :: Survives(first[section], Get(last, section))
  {
    forall section | section in first && section in {"Types", "Reducers"} ensures Survives(first[section], Get(last, section)) {
      assert section in first.Keys + last.Keys;
      assert SectionFits(section, Get(first, section), Get(last, section));
    }
  }

  // ----- a definition with a null type

  const ENTRY := Obj(map["ty" := Num(0), "source_name" := Str("T")])

  /** One type, which is null, and no tables. */
  function NullSchema(): Json {
    Obj(map["V10" := Obj(map["sections" := Arr([
      Obj(map["Typespace" := Obj(map["types" := Arr([Null])])]), Obj(map["Types" := Arr([ENTRY])]), Obj(map["Tables" := Arr([])])])])])
  }

  lemma MergeThree(a: map<string, Json>, b: map<string, Json>, c: map<string, Json>)
    ensures Merge([Obj(a), Obj(b), Obj(c)]) == Some(a + b + c)
  {
    assert [Obj(a), Obj(b), Obj(c)][..2] == [Obj(a), Obj(b)] && [Obj(a), Obj(b)][..1] == [Obj(a)];
    assert [Obj(a)][..0] == [] && map[] + a == a;
    assert Merge([Obj(a)]) == Some(a) && Merge([Obj(a), Obj(b)]) == Some(a + b);
  }

  lemma NullSchemaRead()
    ensures ReadDefinition(NullSchema()) ==
            Some(Definition([Null], map[0 := Str("T")], map["Types" := Arr([ENTRY]), "Tables" := Arr([])]))
  {
    var a: map<string, Json> := map["Typespace" := Obj(map["types" := Arr([Null])])];
    var b: map<string, Json> := map["Types" := Arr([ENTRY])];
    var c: map<string, Json> := map["Tables" := Arr([])];
    MergeThree(a, b, c);
    var sections := a + b + c;
    assert sections - {"Typespace"} == map["Types" := Arr([ENTRY]), "Tables" := Arr([])];
    assert [ENTRY][..0] == [] && NamesOf([ENTRY]) == Some(map[0 := Str("T")]);
    assert Items(Field(NullSchema().fields["V10"], "sections")) == Some([Obj(a), Obj(b), Obj(c)]);
    assert Items(Field(sections["Typespace"], "types")) == Some([Null]) && Items(Some(sections["Types"])) == Some([ENTRY]);
  }

  lemma EntryNormalizes(format: Format)
    requires format.kind == FieldKind
    ensures Normalize(format, map[0 := Str("T")], ENTRY).Some?
  {
    assert NormalizeField(format, map[0 := Str("T")], "ty", Num(0)).Some?;
    assert NormalizeField(format, map[0 := Str("T")], "source_name", Str("T")).Some?;
  }

  function NullDefinition(): Definition {
    Definition([Null], map[0 := Str("T")], map["Types" := Arr([ENTRY]), "Tables" := Arr([])])
  }

  lemma NullSections(format: Format)
    requires format.kind == FieldKind
    ensures var d := NullDefinition();
      CanonicalSection(format, d.names, Arr([ENTRY])).Some? && CanonicalSection(format, d.names, Arr([])) == Some(Arr([]))
  {
    var names := NullDefinition().names;
    EntryNormalizes(format);
    assert Normalize(format, names, Arr([ENTRY])).Some?;
    var none := Normalize(format, names, Arr([])).value;
    assert none.items == [];
  }

  lemma NullNormalizes(format: Format)
    requires format.kind == FieldKind
    ensures var d := NullDefinition(); Normalizes(format, d) && EveryTypeNamed(d) && DistinctNames(d)
  {
    var d := NullDefinition();
    NullSections(format);
    assert forall k | k in d.sections :: k == "Types" || k == "Tables";
  }

  lemma NullReadable(format: Format, c: Canonical)
    requires format.kind == FieldKind && EveryTypeNamed(NullDefinition()) && CanonicalOf(format, NullDefinition()) == Some(c)
    ensures Readable(c)
  {
    var d := NullDefinition();
    NullSections(format);
    assert c["Tables"] == Arr([]);
    assert c["Tables"].items == [] && TablesByName(c["Tables"].items).Some?;
    assert Tables(c).Some?;
    assert forall k | k in c :: k == "Types" || k == "Tables" || k == "Typespace";
    SectionEntries(format, d.names, Arr([ENTRY]), Null);
    assert c["Types"].Arr?;
  }

  /** It is read, can be published again, and has a null type. */
  lemma NullSchemaIsReadable(dumps: Dumps)
    requires Injective(dumps)
    ensures CanonicalSchema(dumps, NullSchema()).Some?
    ensures Readable(CanonicalSchema(dumps, NullSchema()).value) && !NoNullType(CanonicalSchema(dumps, NullSchema()).value)
  {
    var format := Format(dumps, FieldKind);
    NullSchemaRead();
    NullNormalizes(format);
    NullTypesIff(format, NullDefinition());
    assert NullDefinition().types[0] == Null;
    NullReadable(format, CanonicalOf(format, NullDefinition()).value);
  }
}
