/** Configuration models in memory, how they are written as JSON, and what decoding a JSON text into
    a model that already holds something does to it.

    A field that is absent stands for a zero value that is left out when written.  Decoding enters
    records that are already there field by field, adds to dictionaries key by key, goes into lists
    element by element, and replaces everything else.  A value of the wrong kind is skipped and
    reported, and null is skipped where there is nothing it could mean. */
module Models {
  import opened Wrappers
  import opened Json
  import opened KeyOrder

  // A scalar has a zero value, which is null for one that can be missing; a record that can be
  // missing is one behind a pointer.
  datatype Shape =
    | Scalar(zero: Json)
    | Record(optional: bool, fields: Fields)
    | Dictionary
    | Sequence(element: Shape)

  // The fields of a record, in the order they are written.
  datatype Fields = NoField | Field(name: string, shape: Shape, more: Fields)

  // Leaf(Null) is also a record, dictionary or list that is not there.
  datatype Value = Leaf(json: Json) | Tree(fields: Model) | Table(entries: Entries) | List(elements: seq<Value>)

  type Model = map<string, Value>

  type Entries = map<string, Json>

  function Names(fs: Fields): set<string> {
    match fs
    case NoField => {}
    case Field(name, _, more) => {name} + Names(more)
  }

  function ShapeOf(fs: Fields, name: string): Option<Shape> {
    match fs
    case NoField => None
    case Field(n, shape, more) => if n == name then Some(shape) else ShapeOf(more, name)
  }

  // A name that needs no escaping, as the name of a field never does.
  predicate IsPlain(name: string) {
    forall i :: 0 <= i < |name| ==> name[i] >= ' ' && name[i] != '"' && name[i] != '\\'
  }

  lemma {:induction false} PlainIsStringBody(name: string)
    requires IsPlain(name)
    ensures IsStringBody(name)
  {
    if name != "" {
      PlainIsStringBody(name[1..]);
    }
  }

  // Field names are plain and distinct.
  ghost predicate IsDeclared(fs: Fields) {
    match fs
    case NoField => true
    case Field(name, shape, more) =>
      && name !in Names(more) && IsPlain(name) && IsDeclared(more)
      && IsDeclaredShape(shape)
  }

  ghost predicate IsDeclaredShape(shape: Shape) {
    match shape
    case Record(_, fs) => IsDeclared(fs)
    case Sequence(element) => IsDeclaredShape(element)
    case _ => true
  }

  predicate TakesNull(shape: Shape) {
    match shape
    case Scalar(zero) => zero.Null?
    case Record(optional, _) => optional
    case _ => true
  }

  function Zero(shape: Shape): Value {
    match shape
    case Scalar(zero) => Leaf(zero)
    case Record(optional, _) => if optional then Leaf(Null) else Tree(map[])
    case _ => Leaf(Null)
  }

  // ---------------------------------------------------------------- models that can be written

  ghost predicate Fits(v: Value, shape: Shape)
    decreases shape, 0
  {
    if v == Leaf(Null) then TakesNull(shape)
    else
      match shape
      case Scalar(_) => v.Leaf? && Writable(v.json)
      case Record(_, fs) => v.Tree? && Storable(v.fields, fs)
      case Dictionary => v.Table? && forall k :: k in v.entries ==> IsStringBody(k) && Writable(v.entries[k])
      case Sequence(element) => v.List? && forall e :: e in v.elements ==> Fits(e, element)
  }

  ghost predicate Storable(m: Model, fs: Fields)
    decreases fs, 1
  {
    m.Keys <= Names(fs) && FitsEach(m, fs)
  }

  ghost predicate FitsEach(m: Model, fs: Fields)
    decreases fs, 0
  {
    match fs
    case NoField => true
    case Field(name, shape, more) => (name in m ==> Fits(m[name], shape)) && FitsEach(m, more)
  }

  function ToJson(v: Value, shape: Shape): Json
    decreases shape, 0
  {
    match shape
    case Scalar(_) => if v.Leaf? then v.json else Null
    case Record(_, fs) => if v.Tree? then Obj(ToItems(v.fields, fs)) else Null
    case Dictionary => if v.Table? then Obj(TableItems(v.entries, Sorted(v.entries.Keys))) else Null
    case Sequence(element) => if v.List? then Arr(ListItems(v.elements, element)) else Null
  }

  function ToItems(m: Model, fs: Fields): Items
    decreases fs, 0
  {
    match fs
    case NoField => End
    case Field(name, shape, more) =>
      if name in m then More(name, ToJson(m[name], shape), ToItems(m, more)) else ToItems(m, more)
  }

  function ListItems(vs: seq<Value>, element: Shape): Items
    decreases element, 1 + |vs|
  {
    if vs == [] then End else More("", ToJson(vs[0], element), ListItems(vs[1..], element))
  }

  function TableItems(entries: Entries, keys: seq<string>): Items {
    if keys == [] then End
    else if keys[0] in entries then More(keys[0], entries[keys[0]], TableItems(entries, keys[1..]))
    else TableItems(entries, keys[1..])
  }

  lemma {:induction false} JsonIsWritable(v: Value, shape: Shape)
    requires Fits(v, shape) && IsDeclaredShape(shape)
    ensures Writable(ToJson(v, shape))
    decreases shape, 0
  {
    match shape
    case Scalar(_) =>
    case Record(_, fs) =>
      if v.Tree? {
        ItemsAreWritable(v.fields, fs);
      }
    case Dictionary =>
      if v.Table? {
        TableIsWritable(v.entries, Sorted(v.entries.Keys));
      }
    case Sequence(element) =>
      if v.List? {
        ListIsWritable(v.elements, element);
      }
  }

  lemma {:induction false} ListIsWritable(vs: seq<Value>, element: Shape)
    requires IsDeclaredShape(element) && forall e :: e in vs ==> Fits(e, element)
    ensures WritableItems(ListItems(vs, element), false)
    decreases element, 1 + |vs|
  {
    if vs != [] {
      JsonIsWritable(vs[0], element);
      ListIsWritable(vs[1..], element);
    }
  }

  lemma {:induction false} ItemsAreWritable(m: Model, fs: Fields)
    requires FitsEach(m, fs) && IsDeclared(fs)
    ensures WritableItems(ToItems(m, fs), true)
    decreases fs, 0
  {
    if fs.Field? {
      ItemsAreWritable(m, fs.more);
      PlainIsStringBody(fs.name);
      if fs.name in m {
        JsonIsWritable(m[fs.name], fs.shape);
      }
    }
  }

  lemma {:induction false} TableIsWritable(entries: Entries, keys: seq<string>)
    requires forall k :: k in entries ==> IsStringBody(k) && Writable(entries[k])
    ensures WritableItems(TableItems(entries, keys), true)
  {
    if keys != [] {
      TableIsWritable(entries, keys[1..]);
    }
  }

  // ---------------------------------------------------------------- decoding into a model

  // Records and dictionaries take objects, lists take arrays, and null is nothing wrong.
  predicate IsKind(j: Json, shape: Shape) {
    j.Null? ||
    match shape
    case Scalar(_) => true
    case Sequence(_) => j.Arr?
    case _ => j.Obj?
  }

  // What leaves a value as it is.
  predicate IsSkipped(j: Json, shape: Shape) { !IsKind(j, shape) || (j.Null? && !TakesNull(shape)) }

  predicate Accepts(j: Json, shape: Shape)
    decreases j
  {
    && IsKind(j, shape)
    && (shape.Record? && j.Obj? ==> AcceptsItems(j.items, shape.fields))
    && (shape.Sequence? && j.Arr? ==> AcceptsElements(j.items, shape.element))
  }

  predicate AcceptsItems(items: Items, fs: Fields)
    decreases items
  {
    match items
    case End => true
    case More(key, j, rest) =>
      var shape := ShapeOf(fs, key);
      (shape.Some? ==> Accepts(j, shape.value)) && AcceptsItems(rest, fs)
  }

  predicate AcceptsElements(items: Items, element: Shape)
    decreases items
  {
    items.More? ==> Accepts(items.value, element) && AcceptsElements(items.rest, element)
  }

  function FieldsIn(prior: Option<Value>): Model {
    if prior.Some? && prior.value.Tree? then prior.value.fields else map[]
  }

  function EntriesIn(prior: Option<Value>): Entries {
    if prior.Some? && prior.value.Table? then prior.value.entries else map[]
  }

  function ElementsIn(prior: Option<Value>): seq<Value> {
    if prior.Some? && prior.value.List? then prior.value.elements else []
  }

  function Head(vs: seq<Value>): Option<Value> { if vs == [] then None else Some(vs[0]) }

  function Tail(vs: seq<Value>): seq<Value> { if vs == [] then [] else vs[1..] }

  function MergeValue(prior: Option<Value>, j: Json, shape: Shape): Value
    requires !IsSkipped(j, shape)
    decreases j, 0
  {
    if j.Null? then Leaf(Null)
    else
      match shape
      case Scalar(_) => Leaf(j)
      case Record(_, fs) => Tree(MergeItems(FieldsIn(prior), j.items, fs))
      case Dictionary => Table(MergeTable(EntriesIn(prior), j.items))
      case Sequence(element) => List(MergeElements(ElementsIn(prior), j.items, element))
  }

  function MergeField(m: Model, key: string, j: Json, fs: Fields): Model
    decreases j, 1
  {
    var shape := ShapeOf(fs, key);
    if shape.Some? && !IsSkipped(j, shape.value) then m[key := MergeValue(Get(m, key), j, shape.value)] else m
  }

  function MergeItems(m: Model, items: Items, fs: Fields): Model
    decreases items, 0
  {
    match items
    case End => m
    case More(key, j, rest) => MergeItems(MergeField(m, key, j, fs), rest, fs)
  }

  function MergeTable(entries: Entries, items: Items): Entries
    decreases items
  {
    match items
    case End => entries
    case More(key, j, rest) => MergeTable(entries[key := j], rest)
  }

  function MergeElement(prior: Option<Value>, j: Json, element: Shape): Value
    decreases j, 1
  {
    if !IsSkipped(j, element) then MergeValue(prior, j, element)
    else if prior.Some? then prior.value else Zero(element)
  }

  // The array says how many elements there are; each is decoded into the one that was in its place.
  function MergeElements(prior: seq<Value>, items: Items, element: Shape): seq<Value>
    decreases items, 0
  {
    match items
    case End => []
    case More(_, j, rest) => [MergeElement(Head(prior), j, element)] + MergeElements(Tail(prior), rest, element)
  }

  lemma OneItem(m: Model, key: string, j: Json, fs: Fields)
    ensures MergeItems(m, More(key, j, End), fs) == MergeField(m, key, j, fs)
    ensures AcceptsItems(More(key, j, End), fs) <==> (ShapeOf(fs, key).Some? ==> Accepts(j, ShapeOf(fs, key).value))
  {
    assert AcceptsItems(End, fs);
  }

  // ---------------------------------------------------------------- one model over another

  function OverValue(prior: Option<Value>, v: Value, shape: Shape): Value
    decreases shape, 0
  {
    if shape.Record? && v.Tree? then Tree(Over(FieldsIn(prior), v.fields, shape.fields))
    else if shape.Dictionary? && v.Table? then Table(EntriesIn(prior) + v.entries)
    else if shape.Sequence? && v.List? then List(OverEach(ElementsIn(prior), v.elements, shape.element))
    else v
  }

  /** What m holds, over what base holds: record by record, element by element in lists and key by key in
      dictionaries. */
  function Over(base: Model, m: Model, fs: Fields): Model
    decreases fs, 0
  {
    match fs
    case NoField => base
    case Field(name, shape, more) =>
      Over(if name in m then base[name := OverValue(Get(base, name), m[name], shape)] else base, m, more)
  }

  function OverEach(prior: seq<Value>, vs: seq<Value>, element: Shape): seq<Value>
    decreases element, 1 + |vs|
  {
    if vs == [] then []
    else [OverValue(Head(prior), vs[0], element)] + OverEach(Tail(prior), vs[1..], element)
  }

  // Every field of part is the one fs declares under its name.
  ghost predicate IsPart(part: Fields, fs: Fields)
    decreases part
  {
    part.Field? ==> ShapeOf(fs, part.name) == Some(part.shape) && IsPart(part.more, fs)
  }

  lemma {:induction false} IsPartOfLonger(part: Fields, fs: Fields)
    requires fs.Field? && IsPart(part, fs.more) && fs.name !in Names(part)
    ensures IsPart(part, fs)
    decreases part
  {
    if part.Field? {
      IsPartOfLonger(part.more, fs);
    }
  }

  lemma {:induction false} IsPartOfItself(fs: Fields)
    requires IsDeclared(fs)
    ensures IsPart(fs, fs)
    decreases fs
  {
    if fs.Field? {
      IsPartOfItself(fs.more);
      IsPartOfLonger(fs.more, fs);
    }
  }

  /** Decoding a written value into whatever was there lays it over that, and nothing is refused. */
  lemma {:induction false} DecodedValueIsOver(prior: Option<Value>, v: Value, shape: Shape)
    requires Fits(v, shape) && IsDeclaredShape(shape)
    ensures var j := ToJson(v, shape);
      Accepts(j, shape) && !IsSkipped(j, shape) && MergeValue(prior, j, shape) == OverValue(prior, v, shape)
    decreases shape, 1
  {
    match shape
    case Scalar(_) =>
    case Record(_, fs) =>
      if v.Tree? {
        IsPartOfItself(fs);
        DecodedItemsAreOver(FieldsIn(prior), v.fields, fs, fs);
      }
    case Dictionary =>
      if v.Table? {
        var e, keys := v.entries, Sorted(v.entries.Keys);
        DecodedTableIsOver(EntriesIn(prior), e, keys);
        assert Chosen(e, keys) == e;
      }
    case Sequence(element) =>
      if v.List? {
        DecodedElementsAreOver(ElementsIn(prior), v.elements, element);
      }
  }

  lemma {:induction false} DecodedElementsAreOver(prior: seq<Value>, vs: seq<Value>, element: Shape)
    requires IsDeclaredShape(element) && forall e :: e in vs ==> Fits(e, element)
    ensures AcceptsElements(ListItems(vs, element), element)
    ensures MergeElements(prior, ListItems(vs, element), element) == OverEach(prior, vs, element)
    decreases element, 2 + |vs|
  {
    if vs != [] {
      DecodedValueIsOver(Head(prior), vs[0], element);
      DecodedElementsAreOver(Tail(prior), vs[1..], element);
    }
  }

  lemma {:induction false} DecodedItemsAreOver(base: Model, m: Model, part: Fields, fs: Fields)
    requires FitsEach(m, part) && IsDeclared(part) && IsPart(part, fs)
    ensures AcceptsItems(ToItems(m, part), fs)
    ensures MergeItems(base, ToItems(m, part), fs) == Over(base, m, part)
    decreases part, 0
  {
    if part.Field? {
      if part.name in m {
        DecodedValueIsOver(Get(base, part.name), m[part.name], part.shape);
        var next := base[part.name := OverValue(Get(base, part.name), m[part.name], part.shape)];
        assert MergeField(base, part.name, ToJson(m[part.name], part.shape), fs) == next;
        DecodedItemsAreOver(next, m, part.more, fs);
      } else {
        DecodedItemsAreOver(base, m, part.more, fs);
      }
    }
  }

  function Chosen(entries: Entries, keys: seq<string>): Entries { map k | k in entries && k in keys :: entries[k] }

  lemma {:induction false} DecodedTableIsOver(base: Entries, entries: Entries, keys: seq<string>)
    ensures MergeTable(base, TableItems(entries, keys)) == base + Chosen(entries, keys)
    decreases |keys|
  {
    if keys == [] {
      assert base + Chosen(entries, keys) == base;
    } else {
      var k := keys[0];
      var next := if k in entries then base[k := entries[k]] else base;
      DecodedTableIsOver(next, entries, keys[1..]);
      TableMore(base, entries, keys);
    }
  }

  lemma TableMore(base: Entries, entries: Entries, keys: seq<string>)
    requires keys != []
    ensures var next := if keys[0] in entries then base[keys[0] := entries[keys[0]]] else base;
      next + Chosen(entries, keys[1..])
      == base + Chosen(entries, keys)
  {
    assert forall j :: j in keys <==> j == keys[0] || j in keys[1..];
  }

  // ---------------------------------------------------------------- when a saved value comes back

  lemma {:induction false} OverAt(base: Model, m: Model, fs: Fields, k: string)
    requires IsDeclared(fs)
    ensures var r := Over(base, m, fs);
      if k in m && k in Names(fs) then
        ShapeOf(fs, k).Some? && Get(r, k) == Some(OverValue(Get(base, k), m[k], ShapeOf(fs, k).value))
      else Get(r, k) == Get(base, k)
    decreases fs
  {
    if fs.Field? {
      var next := if fs.name in m then base[fs.name := OverValue(Get(base, fs.name), m[fs.name], fs.shape)] else base;
      OverAt(next, m, fs.more, k);
    }
  }

  // Whatever the prior value holds in the place of v, v holds too.
  predicate Covers(v: Value, prior: Option<Value>, shape: Shape)
    decreases shape, 0
  {
    match shape
    case Scalar(_) => true
    case Record(_, fs) => v.Tree? ==> CoversAll(v.fields, FieldsIn(prior), fs)
    case Dictionary => v.Table? ==> EntriesIn(prior).Keys <= v.entries.Keys
    case Sequence(element) => v.List? ==> CoversElements(v.elements, ElementsIn(prior), element)
  }

  predicate CoversElements(vs: seq<Value>, prior: seq<Value>, element: Shape)
    decreases element, 1 + |vs|
  {
    vs != [] ==> Covers(vs[0], Head(prior), element) && CoversElements(vs[1..], Tail(prior), element)
  }

  predicate CoversAll(m: Model, base: Model, fs: Fields)
    decreases fs, 1
  {
    base.Keys <= m.Keys && CoversEach(m, base, fs)
  }

  predicate CoversEach(m: Model, base: Model, fs: Fields)
    decreases fs, 0
  {
    match fs
    case NoField => true
    case Field(name, shape, more) =>
      (name in m ==> Covers(m[name], Get(base, name), shape)) && CoversEach(m, base, more)
  }

  lemma {:induction false} ValueComesBackIff(prior: Option<Value>, v: Value, shape: Shape)
    requires Fits(v, shape) && IsDeclaredShape(shape)
    ensures OverValue(prior, v, shape) == v <==> Covers(v, prior, shape)
    decreases shape, 2
  {
    if shape.Record? && v.Tree? {
      ModelComesBackIff(FieldsIn(prior), v.fields, shape.fields);
    } else if shape.Dictionary? && v.Table? {
      var e := EntriesIn(prior);
      assert (e + v.entries).Keys == e.Keys + v.entries.Keys;
      if e.Keys <= v.entries.Keys {
        assert e + v.entries == v.entries;
      }
    } else if shape.Sequence? && v.List? {
      ElementsComeBackIff(ElementsIn(prior), v.elements, shape.element);
    }
  }

  lemma {:induction false} ElementsComeBackIff(prior: seq<Value>, vs: seq<Value>, element: Shape)
    requires IsDeclaredShape(element) && forall e :: e in vs ==> Fits(e, element)
    ensures OverEach(prior, vs, element) == vs <==> CoversElements(vs, prior, element)
    decreases element, 3 + |vs|
  {
    if vs != [] {
      ValueComesBackIff(Head(prior), vs[0], element);
      ElementsComeBackIff(Tail(prior), vs[1..], element);
      assert vs == [vs[0]] + vs[1..];
    }
  }

  /** A model laid over a base is just itself if and only if, record by record, element by element and in
      every dictionary, it holds whatever the base holds in its place. */
  lemma {:induction false} ModelComesBackIff(base: Model, m: Model, fs: Fields)
    requires Storable(m, fs) && IsDeclared(fs)
    ensures Over(base, m, fs) == m <==> CoversAll(m, base, fs)
    decreases fs, 1
  {
    var r := Over(base, m, fs);
    forall k ensures
      if k in m then ShapeOf(fs, k).Some? && Get(r, k) == Some(OverValue(Get(base, k), m[k], ShapeOf(fs, k).value))
      else Get(r, k) == Get(base, k)
    {
      OverAt(base, m, fs, k);
    }
    IsPartOfItself(fs);
    EachComesBackIff(base, m, fs, fs);
    if base.Keys <= m.Keys {
      forall k ensures k in r <==> k in m {
        assert Get(r, k).Some? <==> k in r;
      }
    } else {
      var k :| k in base && k !in m;
      assert Get(r, k) == Get(base, k);
    }
  }

  // Field by field, for the fields of part.
  lemma {:induction false} EachComesBackIff(base: Model, m: Model, part: Fields, fs: Fields)
    requires FitsEach(m, part) && IsDeclared(part) && IsPart(part, fs)
    ensures CoversEach(m, base, part) <==>
      forall k :: k in m && k in Names(part) ==>
        ShapeOf(fs, k).Some? && OverValue(Get(base, k), m[k], ShapeOf(fs, k).value) == m[k]
    decreases part, 0
  {
    if part.Field? {
      EachComesBackIff(base, m, part.more, fs);
      if part.name in m {
        ValueComesBackIff(Get(base, part.name), m[part.name], part.shape);
      }
    }
  }

  // A model covers one that holds nothing.
  lemma {:induction false} CoversNothing(v: Value, shape: Shape)
    ensures Covers(v, None, shape)
    decreases shape, 0
  {
    if shape.Record? && v.Tree? {
      AllCoverNothing(v.fields, shape.fields);
    } else if shape.Sequence? && v.List? {
      EachCoversNothing(v.elements, shape.element);
    }
  }

  lemma {:induction false} AllCoverNothing(m: Model, fs: Fields)
    ensures CoversAll(m, map[], fs)
    decreases fs, 0
  {
    if fs.Field? {
      AllCoverNothing(m, fs.more);
      if fs.name in m {
        CoversNothing(m[fs.name], fs.shape);
      }
    }
  }

  lemma {:induction false} EachCoversNothing(vs: seq<Value>, element: Shape)
    ensures CoversElements(vs, [], element)
    decreases element, 1 + |vs|
  {
    if vs != [] {
      CoversNothing(vs[0], element);
      EachCoversNothing(vs[1..], element);
    }
  }

  // ---------------------------------------------------------------- what is left out

  // A step into a value.
  datatype Place = Name(field: string) | Index(i: nat) | Entry(key: string)

  function Below(v: Option<Value>, p: Place): Option<Value> {
    match p
    case Name(field) => Get(FieldsIn(v), field)
    case Index(i) => if i < |ElementsIn(v)| then Some(ElementsIn(v)[i]) else None
    case Entry(key) => if key in EntriesIn(v) then Some(Leaf(EntriesIn(v)[key])) else None
  }

  function At(v: Option<Value>, path: seq<Place>): Option<Value>
    decreases |path|
  {
    if path == [] then v else At(Below(v, path[0]), path[1..])
  }

  // The path leads to a record or dictionary of v that lacks its last step.
  predicate IsOmitted(v: Option<Value>, path: seq<Place>)
    decreases |path|
  {
    && path != [] && v.Some?
    && if |path| == 1 then
         Below(v, path[0]).None? && ((path[0].Name? && v.value.Tree?) || (path[0].Entry? && v.value.Table?))
       else
         IsOmitted(Below(v, path[0]), path[1..])
  }

  lemma StepInto(v: Option<Value>, p: Place, path: seq<Place>)
    ensures At(v, [p] + path) == At(Below(v, p), path)
    ensures path != [] && v.Some? ==> IsOmitted(v, [p] + path) == IsOmitted(Below(v, p), path)
  {
    assert ([p] + path)[1..] == path;
  }

  lemma {:induction false} OverEachAt(prior: seq<Value>, vs: seq<Value>, element: Shape, i: nat)
    ensures var r := OverEach(prior, vs, element);
      |r| == |vs| &&
      (i < |vs| ==> r[i] == OverValue(if i < |prior| then Some(prior[i]) else None, vs[i], element))
    decreases |vs|
  {
    if vs != [] {
      OverEachAt(Tail(prior), vs[1..], element, if i == 0 then 0 else i - 1);
    }
  }

  lemma {:induction false} FitsAt(m: Model, fs: Fields, k: string)
    requires FitsEach(m, fs) && IsDeclared(fs) && k in m && k in Names(fs)
    ensures var shape := ShapeOf(fs, k);
      shape.Some? && Fits(m[k], shape.value) && IsDeclaredShape(shape.value)
    decreases fs
  {
    if fs.name != k {
      FitsAt(m, fs.more, k);
    }
  }

  lemma LeafOmitsNothing(j: Json, path: seq<Place>)
    ensures !IsOmitted(Some(Leaf(j)), path)
  {
    if |path| > 1 {
      assert Below(Some(Leaf(j)), path[0]).None?;
    }
  }

  /** Whatever a value leaves out, at any depth of its records, lists and dictionaries, is in the result
      what it was in the prior value. */
  lemma {:induction false} OmittedIsFilledIn(prior: Option<Value>, v: Value, shape: Shape, path: seq<Place>)
    requires Fits(v, shape) && IsDeclaredShape(shape) && IsOmitted(Some(v), path)
    ensures At(Some(OverValue(prior, v, shape)), path) == At(prior, path)
    decreases |path|
  {
    var p := path[0];
    match p
    case Name(field) =>
      OverAt(FieldsIn(prior), v.fields, shape.fields, field);
      if |path| > 1 {
        FitsAt(v.fields, shape.fields, field);
        OmittedIsFilledIn(Below(prior, p), v.fields[field], ShapeOf(shape.fields, field).value, path[1..]);
      }
    case Index(i) =>
      OverEachAt(ElementsIn(prior), v.elements, shape.element, i);
      OmittedIsFilledIn(Below(prior, p), v.elements[i], shape.element, path[1..]);
    case Entry(key) =>
      if |path| > 1 {
        LeafOmitsNothing(v.entries[key], path[1..]);
      }
  }

  // ---------------------------------------------------------------- member by member

  // The member at a position is accepted, or not declared.
  predicate IsFine(items: Items, fs: Fields, i: nat)
    requires i < Length(items)
  {
    var shape := ShapeOf(fs, KeyAt(items, i));
    shape.Some? ==> Accepts(ValueAt(items, i), shape.value)
  }

  lemma {:induction false} ItemsAcceptedIff(items: Items, fs: Fields)
    ensures AcceptsItems(items, fs) <==> forall i :: 0 <= i < Length(items) ==> IsFine(items, fs, i)
    decreases items
  {
    if items.More? {
      ItemsAcceptedIff(items.rest, fs);
      forall i | 0 <= i < Length(items) && AcceptsItems(items, fs) ensures IsFine(items, fs, i) {
        assert i > 0 ==> IsFine(items.rest, fs, i - 1);
      }
      if forall i :: 0 <= i < Length(items) ==> IsFine(items, fs, i) {
        assert IsFine(items, fs, 0);
        forall i | 0 <= i < Length(items.rest) ensures IsFine(items.rest, fs, i) {
          assert IsFine(items, fs, i + 1);
        }
      }
    }
  }

  // The element at a position is accepted.
  predicate IsFineElement(items: Items, element: Shape, i: nat)
    requires i < Length(items)
  {
    Accepts(ValueAt(items, i), element)
  }

  lemma {:induction false} ElementsAcceptedIff(items: Items, element: Shape)
    ensures AcceptsElements(items, element) <==>
      forall i :: 0 <= i < Length(items) ==> IsFineElement(items, element, i)
    decreases items
  {
    if items.More? {
      ElementsAcceptedIff(items.rest, element);
      forall i | 0 <= i < Length(items) && AcceptsElements(items, element) ensures IsFineElement(items, element, i) {
        assert i > 0 ==> IsFineElement(items.rest, element, i - 1);
      }
      if forall i :: 0 <= i < Length(items) ==> IsFineElement(items, element, i) {
        assert IsFineElement(items, element, 0);
        forall i | 0 <= i < Length(items.rest) ensures IsFineElement(items.rest, element, i) {
          assert IsFineElement(items, element, i + 1);
        }
      }
    }
  }

  /** A value is accepted if and only if it is of the right kind and so is everything in it: every declared
      field of a record and every element of a list. */
  lemma AcceptedIff(j: Json, shape: Shape)
    ensures Accepts(j, shape) <==>
      j.Null? ||
      match shape
      case Scalar(_) => true
      case Dictionary => j.Obj?
      case Record(_, fs) => j.Obj? && forall i :: 0 <= i < Length(j.items) ==> IsFine(j.items, fs, i)
      case Sequence(element) =>
        j.Arr? && forall i :: 0 <= i < Length(j.items) ==> IsFineElement(j.items, element, i)
  {
    if shape.Record? && j.Obj? {
      ItemsAcceptedIff(j.items, shape.fields);
    } else if shape.Sequence? && j.Arr? {
      ElementsAcceptedIff(j.items, shape.element);
    }
  }

  predicate DistinctKeys(items: Items) {
    forall i, j :: 0 <= i < j < Length(items) ==> KeyAt(items, i) != KeyAt(items, j)
  }

  lemma {:induction false} MergeElsewhere(m: Model, items: Items, fs: Fields, k: string)
    requires forall i :: 0 <= i < Length(items) ==> KeyAt(items, i) != k
    ensures Get(MergeItems(m, items, fs), k) == Get(m, k)
    decreases items
  {
    if items.More? {
      assert KeyAt(items, 0) == items.key;
      assert forall i :: 0 <= i < Length(items.rest) ==> KeyAt(items, i + 1) == KeyAt(items.rest, i);
      MergeElsewhere(MergeField(m, items.key, items.value, fs), items.rest, fs, k);
    }
  }

  /** The members of an object are decoded each on its own: one that is skipped does not keep the others from
      taking effect. */
  lemma {:induction false} MergeMember(m: Model, items: Items, fs: Fields, i: nat)
    requires DistinctKeys(items) && i < Length(items)
    ensures var k := KeyAt(items, i);
      Get(MergeItems(m, items, fs), k) == Get(MergeField(m, k, ValueAt(items, i), fs), k)
    decreases items
  {
    forall n | 0 <= n < Length(items.rest) ensures KeyAt(items.rest, n) == KeyAt(items, n + 1) != items.key {
      assert KeyAt(items, 0) != KeyAt(items, n + 1);
    }
    forall p, q | 0 <= p < q < Length(items.rest) ensures KeyAt(items.rest, p) != KeyAt(items.rest, q) {
      assert KeyAt(items, p + 1) != KeyAt(items, q + 1);
    }
    var next := MergeField(m, items.key, items.value, fs);
    if i == 0 {
      MergeElsewhere(next, items.rest, fs, items.key);
    } else {
      MergeMember(next, items.rest, fs, i - 1);
      assert KeyAt(items, 0) != KeyAt(items, i);
      SameElsewhere(m, items.key, items.value, fs, KeyAt(items, i), ValueAt(items, i));
    }
  }

  lemma SameElsewhere(m: Model, key: string, j: Json, fs: Fields, k: string, l: Json)
    requires key != k
    ensures Get(MergeField(MergeField(m, key, j, fs), k, l, fs), k) == Get(MergeField(m, k, l, fs), k)
  {
    assert Get(MergeField(m, key, j, fs), k) == Get(m, k);
  }

  /** The elements of an array too: there are as many as it has, and each is what its member makes of the one
      in its place - or, for null and for the wrong kind where they are skipped, that one itself or zero. */
  lemma {:induction false} MergeElementAt(prior: seq<Value>, items: Items, element: Shape, i: nat)
    requires i < Length(items)
    ensures var r := MergeElements(prior, items, element);
      var j, before := ValueAt(items, i), if i < |prior| then Some(prior[i]) else None;
      && |r| == Length(items)
      && if j.Null? && TakesNull(element) then r[i] == Leaf(Null)
         else if j.Null? || (element.Sequence? && !j.Arr?) || ((element.Record? || element.Dictionary?) && !j.Obj?) then
           if before.Some? then r[i] == before.value else IsZero(r[i], element)
         else r[i] == MergeValue(before, j, element)
    decreases items
  {
    MergeElementsLength(prior, items, element);
    if i > 0 {
      MergeElementAt(Tail(prior), items.rest, element, i - 1);
    }
  }

  lemma {:induction false} MergeElementsLength(prior: seq<Value>, items: Items, element: Shape)
    ensures |MergeElements(prior, items, element)| == Length(items)
    decreases items
  {
    if items.More? {
      MergeElementsLength(Tail(prior), items.rest, element);
    }
  }

  predicate IsZero(v: Value, shape: Shape) {
    match shape
    case Scalar(zero) => v == Leaf(zero)
    case Record(optional, _) => v == if optional then Leaf(Null) else Tree(map[])
    case _ => v == Leaf(Null)
  }
}
