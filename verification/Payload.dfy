/**
  The document fields of one upload (`sync/doc_fields_payload.py`, `assemble`): three
  layers with precedence, cleaned, then cut to a number of keys and of bytes.
 */
module Payload {
  import opened Prelude
  import opened Sorting
  import opened Strings

  const MAX_KEYS: nat := 64
  const MAX_VALUES_PER_KEY: nat := 32
  const MAX_VALUE_CHARS: nat := 256
  const MAX_PAYLOAD_BYTES: nat := 16384

  datatype Layer = Capture | Static | Metadata

  /** Capture wins over static, static over metadata; drops go the other way. */
  function Rank(layer: Layer): nat {
    match layer case Capture => 0 case Static => 1 case Metadata => 2
  }

  datatype Scalar = Text(text: string) | Number(digits: string, finite: bool) | Flag(on: bool) | Unsupported

  datatype Value = One(scalar: Scalar) | Many(items: seq<Scalar>)

  datatype Field = Field(key: string, layer: Layer, value: Value)

  // ----- cleaning -----------------------------------------------------------------------

  predicate IsBlank(s: string) { forall i :: 0 <= i < |s| ==> IsSpace(s[i]) }

  /** `_clean_scalar` keeps it. */
  predicate Keeps(s: Scalar) {
    match s
    case Text(text) => !IsBlank(text) && |text| <= MAX_VALUE_CHARS
    case Number(_, finite) => finite
    case Flag(_) => true
    case Unsupported => false
  }

  /** What is acceptable: a text of at most 256 characters that is not all blanks, a finite number, a truth value. */
  lemma KeepsExactly(s: Scalar)
    ensures Keeps(s) <==> || (s.Text? && |s.text| <= 256 && exists i :: 0 <= i < |s.text| && !IsSpace(s.text[i]))
                          || (s.Number? && s.finite) || s.Flag?
  {
  }

  function Filter(items: seq<Scalar>): seq<Scalar> {
    if items == [] then []
    else (if Keeps(items[0]) then [items[0]] else []) + Filter(items[1..])
  }

  lemma {:induction false} FilterExact(items: seq<Scalar>)
    ensures forall s :: s in Filter(items) <==> s in items && Keeps(s)
    ensures |Filter(items)| <= |items|
    ensures (forall i :: 0 <= i < |items| ==> Keeps(items[i])) ==> Filter(items) == items
  {
    if items != [] {
      FilterExact(items[1..]);
      assert items == [items[0]] + items[1..];
    }
  }

  /** `_clean_value`: a list over the cap goes whole, single bad items one by one. */
  function Clean(value: Value): (clean: Option<Value>)
    ensures clean.None? <==> match value
                             case One(s) => !Keeps(s)
                             case Many(items) => items == [] || |items| > 32 || forall s :: s in items ==> !Keeps(s)
    ensures clean.Some? && value.One? ==> clean.value == value
    ensures clean.Some? && clean.value.One? ==> value == clean.value && Keeps(value.scalar)
    ensures clean.Some? && clean.value.Many? ==>
      && value.Many? && 0 < |clean.value.items| <= |value.items| <= MAX_VALUES_PER_KEY
      && forall s :: s in clean.value.items <==> s in value.items && Keeps(s)
  {
    match value
    case One(s) => if Keeps(s) then Some(value) else None
    case Many(items) =>
      FilterExact(items);
      assert Filter(items) != [] ==> Filter(items)[0] in Filter(items);
      if items == [] || |items| > MAX_VALUES_PER_KEY || Filter(items) == [] then None else Some(Many(Filter(items)))
  }

  /** Order and repeats stay: what is kept of two lists one after the other is what is kept of each. */
  lemma {:induction false} FilterInOrder(a: seq<Scalar>, b: seq<Scalar>)
    ensures Filter(a + b) == Filter(a) + Filter(b)
  {
    if a == [] {
      assert a + b == b;
    } else {
      var rest := a[1..];
      FilterInOrder(rest, b);
      assert (a + b)[0] == a[0] && (a + b)[1..] == rest + b;
      var head := if Keeps(a[0]) then [a[0]] else [];
      assert Filter(a + b) == head + Filter(rest + b);
      assert head + (Filter(rest) + Filter(b)) == (head + Filter(rest)) + Filter(b);
    }
  }

  lemma CleanInOrder(items: seq<Scalar>)
    requires Clean(Many(items)).Some?
    ensures Clean(Many(items)).value == Many(Filter(items))
    ensures |items| == 1 ==> Filter(items) == items
  {
    FilterExact(items);
  }

  // ----- keys ------------------------------------------------------------------------------

  predicate IsKeyChar(c: char) { 'a' <= c <= 'z' || IsDigit(c) || c == '_' }

  /** `^[a-z][a-z0-9_]{0,63}$`; as in Python, `$` also matches before a final line break. */
  predicate MatchesKey(key: string) {
    MatchesBody(if key != "" && key[|key| - 1] == '\n' then key[..|key| - 1] else key)
  }

  predicate MatchesBody(body: string) {
    0 < |body| <= 64 && 'a' <= body[0] <= 'z' && forall i :: 0 <= i < |body| ==> IsKeyChar(body[i])
  }

  /** Runs of other characters become one underscore. */
  function Collapsed(key: string): string {
    if key == "" then ""
    else
      var c := LowerChar(key[0]);
      if 'a' <= c <= 'z' || IsDigit(c) then [c] + Collapsed(key[1..])
      else
        var rest := Collapsed(key[1..]);
        if rest != "" && rest[0] == '_' then rest else "_" + rest
  }

  function Stripped(s: string): string {
    if s != "" && s[0] == '_' then Stripped(s[1..])
    else if s != "" && s[|s| - 1] == '_' then Stripped(s[..|s| - 1])
    else s
  }

  predicate IsSystemKey(key: string) {
    Stripped(Collapsed(key)) in {"title", "description", "path", "ingested_at", "pointer"}
  }

  predicate AllowsKey(key: string) { !IsSystemKey(key) && MatchesKey(key) }

  // ----- the size on the wire --------------------------------------------------------------

  function JsonChar(c: char): nat {
    var n := c as int;
    if c == '"' || c == '\\' || n == 0x08 || n == 0x09 || n == 0x0a || n == 0x0c || n == 0x0d then 2
    else if n < 0x20 then 6
    else Utf8Size(c)
  }

  function JsonText(s: string): nat {
    if s == "" then 0 else JsonChar(s[0]) + JsonText(s[1..])
  }

  function JsonScalar(s: Scalar): nat {
    match s
    case Text(text) => 2 + JsonText(text)
    case Number(digits, _) => |digits|
    case Flag(on) => if on then 4 else 5
    case Unsupported => 0
  }

  function JsonItems(items: seq<Scalar>): nat {
    if items == [] then 0 else JsonScalar(items[0]) + JsonItems(items[1..])
  }

  function JsonValue(value: Value): nat {
    match value
    case One(s) => JsonScalar(s)
    case Many(items) => 2 + JsonItems(items) + if |items| > 0 then |items| - 1 else 0
  }

  /** One `"key":value`. */
  function EntrySize(f: Field): nat { 3 + JsonText(f.key) + JsonValue(f.value) }

  function Entries(fields: seq<Field>): nat {
    if fields == [] then 0 else EntrySize(fields[0]) + Entries(fields[1..])
  }

  /** `encoded_size`: braces, entries and the commas between them. */
  function EncodedSize(fields: seq<Field>): nat {
    2 + Entries(fields) + if |fields| > 0 then |fields| - 1 else 0
  }

  lemma {:induction false} EntriesAppend(a: seq<Field>, b: seq<Field>)
    ensures Entries(a + b) == Entries(a) + Entries(b)
  {
    if a == [] {
      assert a + b == b;
    } else {
      EntriesAppend(a[1..], b);
      assert (a + b)[0] == a[0] && (a + b)[1..] == a[1..] + b;
    }
  }

  function Removed(fields: seq<Field>, v: nat): seq<Field>
    requires v < |fields|
  {
    fields[..v] + fields[v + 1..]
  }

  lemma RemovedSize(fields: seq<Field>, v: nat)
    requires v < |fields|
    ensures EncodedSize(fields) == EncodedSize(Removed(fields, v)) + EntrySize(fields[v]) + if |fields| > 1 then 1 else 0
  {
    EntriesAppend(fields[..v], fields[v..]);
    EntriesAppend(fields[..v], fields[v + 1..]);
    assert fields == fields[..v] + fields[v..];
    assert fields[v..][0] == fields[v] && fields[v..][1..] == fields[v + 1..];
  }

  // ----- who is dropped next -----------------------------------------------------------------

  /** `b` is dropped before `a`, or they are the same: by layer, then by size when that is what counts, then by key. */
  predicate Outlasts(a: Field, b: Field, bySize: bool) {
    || Rank(a.layer) < Rank(b.layer)
    || (Rank(a.layer) == Rank(b.layer)
        && (if bySize && EntrySize(a) != EntrySize(b) then EntrySize(a) < EntrySize(b) else StringLe(a.key, b.key)))
  }

  lemma OutlastsTransitive(a: Field, b: Field, c: Field, bySize: bool)
    requires Outlasts(a, b, bySize) && Outlasts(b, c, bySize)
    ensures Outlasts(a, c, bySize)
  {
    if StringLe(a.key, b.key) && StringLe(b.key, c.key) {
      StringLeTransitive(a.key, b.key, c.key);
    }
  }

  lemma OutlastsTotal(a: Field, b: Field, bySize: bool)
    ensures Outlasts(a, b, bySize) || Outlasts(b, a, bySize)
    ensures a == b ==> Outlasts(a, b, bySize)
  {
    StringLeTotal(a.key, b.key);
  }

  /** The largest, or last, of one layer's fields. */
  method LayerVictim(fields: seq<Field>, layer: Layer, bySize: bool) returns (v: Option<nat>)
    ensures v.None? ==> forall i :: 0 <= i < |fields| ==> fields[i].layer != layer
    ensures v.Some? ==> v.value < |fields| && fields[v.value].layer == layer
    ensures v.Some? ==> forall i :: 0 <= i < |fields| && fields[i].layer == layer ==> Outlasts(fields[i], fields[v.value], bySize)
  {
    v := None;
    for i := 0 to |fields|
      invariant v.None? ==> forall j :: 0 <= j < i ==> fields[j].layer != layer
      invariant v.Some? ==> v.value < i && fields[v.value].layer == layer
      invariant v.Some? ==> forall j :: 0 <= j < i && fields[j].layer == layer ==> Outlasts(fields[j], fields[v.value], bySize)
    {
      if fields[i].layer == layer {
        OutlastsTotal(fields[i], fields[i], bySize);
        if v.None? {
          v := Some(i);
        } else {
          OutlastsTotal(fields[v.value], fields[i], bySize);
          if Outlasts(fields[v.value], fields[i], bySize) {
            forall j | 0 <= j < i && fields[j].layer == layer ensures Outlasts(fields[j], fields[i], bySize) {
              OutlastsTransitive(fields[j], fields[v.value], fields[i], bySize);
            }
            v := Some(i);
          }
        }
      }
    }
  }

  /** `_victim`: from the lowest layer that has any. */
  method Victim(fields: seq<Field>, bySize: bool) returns (v: nat)
    requires fields != []
    ensures v < |fields| && forall i :: 0 <= i < |fields| ==> Outlasts(fields[i], fields[v], bySize)
  {
    var found := LayerVictim(fields, Metadata, bySize);
    if found.None? {
      found := LayerVictim(fields, Static, bySize);
      if found.None? {
        found := LayerVictim(fields, Capture, bySize);
        assert fields[0].layer == Capture;
      }
    }
    v := found.value;
  }

  // ----- the two caps ------------------------------------------------------------------------

  ghost predicate KeyOrdered(fields: seq<Field>) {
    forall i, j :: 0 <= i < j < |fields| ==> StringLt(fields[i].key, fields[j].key)
  }

  /** `kept` are fields of `all`, in order, and everything that went is outlasted by everything that stayed. */
  ghost predicate Cut(all: seq<Field>, kept: seq<Field>, bySize: bool) {
    && KeyOrdered(kept)
    && (forall f :: f in kept ==> f in all)
    && (forall f, x :: f in all && f !in kept && x in kept ==> Outlasts(x, f, bySize))
  }

  lemma RemoveElements(fields: seq<Field>, v: nat)
    requires KeyOrdered(fields) && v < |fields|
    ensures KeyOrdered(Removed(fields, v))
    ensures forall f :: f in Removed(fields, v) <==> f in fields && f != fields[v]
  {
    var r := Removed(fields, v);
    assert forall i :: 0 <= i < |r| ==> r[i] == fields[if i < v then i else i + 1];
    forall f | f in fields && f != fields[v] ensures f in r {
      var i :| 0 <= i < |fields| && fields[i] == f;
      assert f == r[if i < v then i else i - 1];
    }
  }

  lemma CutFurther(all: seq<Field>, kept: seq<Field>, v: nat, bySize: bool)
    requires Cut(all, kept, bySize) && v < |kept|
    requires forall i :: 0 <= i < |kept| ==> Outlasts(kept[i], kept[v], bySize)
    ensures Cut(all, Removed(kept, v), bySize)
  {
    RemoveElements(kept, v);
    var r := Removed(kept, v);
    forall f, x | f in all && f !in r && x in r ensures Outlasts(x, f, bySize) {
      var i :| 0 <= i < |kept| && kept[i] == x;
    }
  }

  /** The key cap: the first 64 by layer and key stay. */
  method CapKeys(fields: seq<Field>) returns (kept: seq<Field>, dropped: nat)
    requires KeyOrdered(fields)
    ensures Cut(fields, kept, false)
    ensures |kept| == Min(|fields|, MAX_KEYS) && dropped == |fields| - |kept|
    ensures |fields| <= MAX_KEYS ==> kept == fields
  {
    kept, dropped := fields, 0;
    while |kept| > MAX_KEYS
      invariant Cut(fields, kept, false) && dropped == |fields| - |kept|
      invariant |kept| >= Min(|fields|, MAX_KEYS) && (dropped == 0 ==> kept == fields)
    {
      var v := Victim(kept, false);
      CutFurther(fields, kept, v, false);
      kept := Removed(kept, v);
      dropped := dropped + 1;
    }
  }

  /** `f` went last, and had to go: with it the rest did not fit. */
  ghost predicate WentLast(all: seq<Field>, kept: seq<Field>, f: Field) {
    && f in all && f !in kept
    && EncodedSize(kept) + EntrySize(f) + (if |kept| > 0 then 1 else 0) > 16384
    && forall x :: x in all && x !in kept ==> Outlasts(f, x, true)
  }

  ghost predicate LastDropCounted(all: seq<Field>, kept: seq<Field>) { exists f :: WentLast(all, kept, f) }

  /** The byte cap: largest first within the lowest layer, and no more than needed. */
  method CapBytes(fields: seq<Field>) returns (kept: seq<Field>, dropped: nat)
    requires KeyOrdered(fields)
    ensures Cut(fields, kept, true)
    ensures EncodedSize(kept) <= MAX_PAYLOAD_BYTES && |kept| <= |fields| && dropped == |fields| - |kept|
    ensures if dropped == 0 then kept == fields else LastDropCounted(fields, kept)
  {
    kept, dropped := fields, 0;
    while kept != [] && EncodedSize(kept) > MAX_PAYLOAD_BYTES
      invariant Cut(fields, kept, true) && |kept| <= |fields| && dropped == |fields| - |kept|
      invariant if dropped == 0 then kept == fields else LastDropCounted(fields, kept)
      decreases |kept|
    {
      var v := Victim(kept, true);
      CutFurther(fields, kept, v, true);
      DropCounts(fields, kept, v);
      kept := Removed(kept, v);
      dropped := dropped + 1;
    }
  }

  lemma DropCounts(all: seq<Field>, kept: seq<Field>, v: nat)
    requires Cut(all, kept, true) && v < |kept| && EncodedSize(kept) > MAX_PAYLOAD_BYTES
    ensures LastDropCounted(all, Removed(kept, v))
  {
    var r, f := Removed(kept, v), kept[v];
    RemoveElements(kept, v);
    RemovedSize(kept, v);
    OutlastsTotal(f, f, true);
    assert f in all && f !in r;
    forall x | x in all && x !in r ensures Outlasts(f, x, true) {
      assert x == f || x !in kept;
    }
    assert WentLast(all, r, f);
  }

  // ----- assembling -----------------------------------------------------------------------------

  datatype Layers = Layers(capture: map<string, Value>, fixed: map<string, Value>, metadata: map<string, Value>)

  function Names(l: Layers): set<string> { l.capture.Keys + l.fixed.Keys + l.metadata.Keys }

  function In(l: Layers, layer: Layer): map<string, Value> {
    match layer case Capture => l.capture case Static => l.fixed case Metadata => l.metadata
  }

  /** A name is one that some layer gives. */
  lemma NamesExactly(l: Layers, key: string)
    ensures key in Names(l) <==> exists layer :: key in In(l, layer)
  {
    assert key in l.capture ==> key in In(l, Capture);
    assert key in l.fixed ==> key in In(l, Static);
    assert key in l.metadata ==> key in In(l, Metadata);
  }

  /** The field a key gets: from the highest layer that names it. */
  function Winner(l: Layers, key: string): (f: Field)
    requires key in Names(l)
    ensures f.key == key && key in In(l, f.layer) && f.value == In(l, f.layer)[key]
    ensures forall other: Layer :: key in In(l, other) ==> Rank(f.layer) <= Rank(other)
  {
    if key in l.capture then Field(key, Capture, l.capture[key])
    else if key in l.fixed then Field(key, Static, l.fixed[key])
    else Field(key, Metadata, l.metadata[key])
  }

  /** `f` is a key's winning value, cleaned. */
  predicate IsClean(l: Layers, f: Field) {
    && f.key in Names(l) && AllowsKey(f.key)
    && f.layer == Winner(l, f.key).layer && Clean(Winner(l, f.key).value) == Some(f.value)
  }

  method SortedNames(names: set<string>) returns (sorted: seq<string>)
    ensures forall n :: n in sorted <==> n in names
    ensures forall i, j :: 0 <= i < j < |sorted| ==> StringLt(sorted[i], sorted[j])
  {
    sorted := [];
    var rest := names;
    while rest != {}
      invariant forall n :: n in sorted <==> n in names && n !in rest
      invariant rest <= names
      invariant forall i, j :: 0 <= i < j < |sorted| ==> StringLt(sorted[i], sorted[j])
      decreases |rest|
    {
      var n :| n in rest;
      InsertName(n, sorted);
      sorted := Insert(n, sorted, StringLe);
      rest := rest - {n};
    }
  }

  lemma {:induction false} InsertName(n: string, s: seq<string>)
    requires n !in s && forall i, j :: 0 <= i < j < |s| ==> StringLt(s[i], s[j])
    ensures var t := Insert(n, s, StringLe);
            (forall x :: x in t <==> x == n || x in s) && forall i, j :: 0 <= i < j < |t| ==> StringLt(t[i], t[j])
  {
    if s != [] {
      var rest := s[1..];
      assert s == [s[0]] + rest;
      if StringLe(n, s[0]) {
        forall j | 0 <= j < |s| ensures StringLt(n, s[j]) {
          if j > 0 {
            StringLeTransitive(n, s[0], s[j]);
          }
        }
      } else {
        StringLeTotal(n, s[0]);
        InsertName(n, rest);
        var t := Insert(n, rest, StringLe);
        forall j | 0 <= j < |t| ensures StringLt(s[0], t[j]) {
          assert t[j] in t;
          if t[j] != n {
            var i :| 0 <= i < |rest| && rest[i] == t[j];
            assert t[j] == s[i + 1];
          }
        }
        var out := [s[0]] + t;
        assert forall j :: 0 < j < |out| ==> out[j] == t[j - 1];
      }
    }
  }

  /** The field of a key that is allowed and whose winning value survives cleaning. */
  function FieldOf(l: Layers, key: string): (f: Option<Field>)
    requires key in Names(l)
    ensures f.Some? ==> f.value.key == key && IsClean(l, f.value)
    ensures forall g :: IsClean(l, g) && g.key == key ==> f == Some(g)
  {
    if AllowsKey(key) && Clean(Winner(l, key).value).Some? then
      Some(Field(key, Winner(l, key).layer, Clean(Winner(l, key).value).value))
    else None
  }

  /** The fields of the first names, in their order. */
  ghost predicate FieldsOfFirst(l: Layers, names: seq<string>, n: nat, fields: seq<Field>)
    requires n <= |names|
  {
    && KeyOrdered(fields)
    && (forall f :: f in fields ==> IsClean(l, f) && f.key in names[..n])
    && (forall i :: 0 <= i < n && names[i] in Names(l) && FieldOf(l, names[i]).Some? ==> FieldOf(l, names[i]).value in fields)
  }

  lemma NextField(l: Layers, names: seq<string>, n: nat, fields: seq<Field>, f: Field)
    requires n < |names| && forall i, j :: 0 <= i < j < |names| ==> StringLt(names[i], names[j])
    requires FieldsOfFirst(l, names, n, fields) && names[n] in Names(l) && FieldOf(l, names[n]) == Some(f)
    ensures FieldsOfFirst(l, names, n + 1, fields + [f])
  {
    assert names[..n + 1] == names[..n] + [f.key];
    forall i | 0 <= i < |fields| ensures StringLt(fields[i].key, f.key) {
      assert fields[i] in fields;
      var m :| 0 <= m < n && names[m] == fields[i].key;
    }
    OrderedWith(fields, f);
  }

  lemma OrderedWith(fields: seq<Field>, f: Field)
    requires KeyOrdered(fields) && forall i :: 0 <= i < |fields| ==> StringLt(fields[i].key, f.key)
    ensures KeyOrdered(fields + [f])
  {
  }

  /** Every allowed key's winning value, cleaned, in key order. */
  method CleanFields(l: Layers) returns (fields: seq<Field>)
    ensures KeyOrdered(fields)
    ensures forall f :: f in fields <==> IsClean(l, f)
  {
    var names := SortedNames(Names(l));
    fields := [];
    for n := 0 to |names|
      invariant FieldsOfFirst(l, names, n, fields)
    {
      var f := FieldOf(l, names[n]);
      if f.Some? {
        NextField(l, names, n, fields, f.value);
        fields := fields + [f.value];
      }
    }
    forall f | IsClean(l, f) ensures f in fields {
      var i :| 0 <= i < |names| && names[i] == f.key;
    }
  }

  /** The keys that have a field. */
  ghost function CleanKeys(l: Layers): set<string> {
    set key | key in Names(l) && FieldOf(l, key).Some?
  }

  lemma {:induction false} KeyCount(fields: seq<Field>, keys: set<string>)
    requires KeyOrdered(fields) && forall k :: k in keys <==> exists i :: 0 <= i < |fields| && fields[i].key == k
    ensures |fields| == |keys|
  {
    if fields == [] {
      assert keys == {};
    } else {
      var n := |fields| - 1;
      var init := fields[..n];
      forall k ensures k in keys - {fields[n].key} <==> exists i :: 0 <= i < |init| && init[i].key == k {
        if k in keys && k != fields[n].key {
          var i :| 0 <= i < |fields| && fields[i].key == k;
          assert init[i].key == k;
        }
      }
      KeyCount(init, keys - {fields[n].key});
      assert fields[n].key in keys;
    }
  }

  lemma CleanCount(l: Layers, fields: seq<Field>)
    requires KeyOrdered(fields) && forall f :: f in fields <==> IsClean(l, f)
    ensures |fields| == |CleanKeys(l)|
  {
    forall k ensures k in CleanKeys(l) <==> exists i :: 0 <= i < |fields| && fields[i].key == k {
      if k in CleanKeys(l) {
        var f := FieldOf(l, k).value;
        assert f in fields;
      }
      forall i | 0 <= i < |fields| && fields[i].key == k ensures k in CleanKeys(l) {
        assert fields[i] in fields;
      }
    }
    KeyCount(fields, CleanKeys(l));
  }

  /** What the key cap leaves: the first 64 clean fields by layer and key. */
  ghost predicate KeyCapped(l: Layers, some: seq<Field>) {
    && KeyOrdered(some) && |some| == Min(|CleanKeys(l)|, MAX_KEYS)
    && (forall f :: f in some ==> IsClean(l, f))
    && (forall f, x :: IsClean(l, f) && f !in some && x in some ==> Outlasts(x, f, false))
  }

  /** What the byte cap leaves of that: it fits, and nothing went that did not have to. */
  ghost predicate ByteCapped(some: seq<Field>, values: seq<Field>) {
    && Cut(some, values, true) && EncodedSize(values) <= MAX_PAYLOAD_BYTES
    && (values == some || LastDropCounted(some, values))
  }

  /**
    `assemble`: within both caps; every value is its key's winning one, never a lower layer's; whatever was cut
    is of no higher layer than anything that stayed; and every clean field is sent or counted by the cap it fell to.
   */
  method Assemble(l: Layers) returns (values: seq<Field>, capExceeded: nat, tooLarge: nat)
    ensures KeyOrdered(values) && |values| <= 64 && EncodedSize(values) <= 16384
    ensures forall f :: f in values ==> IsClean(l, f)
    ensures forall f, x :: IsClean(l, f) && f !in values && x in values ==> Rank(x.layer) <= Rank(f.layer)
    ensures tooLarge == capExceeded == 0 ==> forall f :: f in values <==> IsClean(l, f)
    ensures |values| + tooLarge + capExceeded == |CleanKeys(l)|
    ensures capExceeded == if |CleanKeys(l)| > 64 then |CleanKeys(l)| - 64 else 0
    ensures exists some :: KeyCapped(l, some) && ByteCapped(some, values)
  {
    var fields := CleanFields(l);
    CleanCount(l, fields);
    var some;
    some, capExceeded := CapKeys(fields);
    values, tooLarge := CapBytes(some);
    assert KeyCapped(l, some) && ByteCapped(some, values);
    forall f, x | IsClean(l, f) && f !in values && x in values ensures Rank(x.layer) <= Rank(f.layer) {
      if f in some {
        assert Outlasts(x, f, true);
      } else {
        assert Outlasts(x, f, false);
      }
    }
  }
}
