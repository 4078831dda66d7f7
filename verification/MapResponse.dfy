/**
 Reading a map back from a response: parsePbResponse of crdt_commands.go.
 */
module MapResponse {
  import opened Common
  import opened MapOps

  /** A MapEntry of the response: a field and one value per type, of which the field's type selects one. */
  datatype MapEntry = MapEntry(
    name: string, typ: FieldType,
    counterValue: int, setValue: seq<Bytes>, registerValue: Bytes, flagValue: bool, mapValue: seq<MapEntry>)

  /** The Map handed to the caller. */
  datatype RiakMap = RiakMap(
    counters: map<string, int>, sets: map<string, seq<Bytes>>, registers: map<string, Bytes>,
    flags: map<string, bool>, maps: map<string, RiakMap>)

  const EMPTY_MAP := RiakMap(map[], map[], map[], map[], map[])

  datatype Value =
    | CounterValue(n: int)
    | SetValue(vs: seq<Bytes>)
    | RegisterValue(v: Bytes)
    | FlagValue(b: bool)
    | MapValue(m: RiakMap)

  function Lookup(m: RiakMap, t: FieldType, name: string): Option<Value> {
    match t
    case COUNTER => if name in m.counters then Some(CounterValue(m.counters[name])) else None
    case SET => if name in m.sets then Some(SetValue(m.sets[name])) else None
    case REGISTER => if name in m.registers then Some(RegisterValue(m.registers[name])) else None
    case FLAG => if name in m.flags then Some(FlagValue(m.flags[name])) else None
    case MAP => if name in m.maps then Some(MapValue(m.maps[name])) else None
  }

  /** The map after storing one entry. */
  function Store(m: RiakMap, e: MapEntry, inner: RiakMap): RiakMap {
    match e.typ
    case COUNTER => m.(counters := m.counters[e.name := e.counterValue])
    case SET => m.(sets := m.sets[e.name := e.setValue])
    case REGISTER => m.(registers := m.registers[e.name := e.registerValue])
    case FLAG => m.(flags := m.flags[e.name := e.flagValue])
    case MAP => m.(maps := m.maps[e.name := inner])
  }

  function Parsed(es: seq<MapEntry>): RiakMap {
    if es == [] then EMPTY_MAP
    else
      var e := es[|es| - 1];
      Store(Parsed(es[..|es| - 1]), e, if e.typ.MAP? then Parsed(e.mapValue) else EMPTY_MAP)
  }

  /** The loop over the entries, with its recursion for nested maps. */
  method ParsePbResponse(es: seq<MapEntry>) returns (m: RiakMap)
    ensures m == Parsed(es)
    decreases es
  {
    m := EMPTY_MAP;
    for i := 0 to |es|
      invariant m == Parsed(es[..i])
    {
      var e := es[i];
      assert es[..i + 1][..i] == es[..i];
      match e.typ {
        case COUNTER =>
          m := m.(counters := m.counters[e.name := e.counterValue]);
        case SET =>
          m := m.(sets := m.sets[e.name := e.setValue]);
        case REGISTER =>
          m := m.(registers := m.registers[e.name := e.registerValue]);
        case FLAG =>
          m := m.(flags := m.flags[e.name := e.flagValue]);
        case MAP =>
          var inner := ParsePbResponse(e.mapValue);
          m := m.(maps := m.maps[e.name := inner]);
      }
    }
    assert es[..|es|] == es;
  }

  // ------------------------------------------------------------------------------------------
  // The last entry of a field decides
  // ------------------------------------------------------------------------------------------

  predicate IsField(e: MapEntry, t: FieldType, name: string) {
    e.typ == t && e.name == name
  }

  /** The value an entry carries for its field. */
  function ValueOf(e: MapEntry): Value {
    match e.typ
    case COUNTER => CounterValue(e.counterValue)
    case SET => SetValue(e.setValue)
    case REGISTER => RegisterValue(e.registerValue)
    case FLAG => FlagValue(e.flagValue)
    case MAP => MapValue(Parsed(e.mapValue))
  }

  lemma StoreSame(m: RiakMap, e: MapEntry, inner: RiakMap)
    requires e.typ.MAP? ==> inner == Parsed(e.mapValue)
    ensures Lookup(Store(m, e, inner), e.typ, e.name) == Some(ValueOf(e))
  {
    hide Parsed;
  }

  lemma StoreOther(m: RiakMap, e: MapEntry, inner: RiakMap, t: FieldType, name: string)
    requires !IsField(e, t, name)
    ensures Lookup(Store(m, e, inner), t, name) == Lookup(m, t, name)
  {
    match t
    case COUNTER =>
    case SET =>
    case REGISTER =>
    case FLAG =>
    case MAP =>
  }

  /** A field is present iff some entry names it, and the last such entry gives its value. */
  lemma {:induction false} LastEntryWins(es: seq<MapEntry>, t: FieldType, name: string)
    ensures Lookup(Parsed(es), t, name).None? <==> forall i :: 0 <= i < |es| ==> !IsField(es[i], t, name)
    ensures forall i ::
              0 <= i < |es| && IsField(es[i], t, name) && (forall j :: i < j < |es| ==> !IsField(es[j], t, name)) ==>
              Lookup(Parsed(es), t, name) == Some(ValueOf(es[i]))
  {
    hide Lookup, Store, ValueOf, IsField;
    if es == [] {
      EmptyLookup(t, name);
    } else {
      var n := |es| - 1;
      var before, e := es[..n], es[n];
      var inner := if e.typ.MAP? then Parsed(e.mapValue) else EMPTY_MAP;
      LastEntryWins(before, t, name);
      assert forall i :: 0 <= i < n ==> before[i] == es[i];
      if IsField(e, t, name) {
        FieldIs(e, t, name);
        StoreSame(Parsed(before), e, inner);
      } else {
        StoreOther(Parsed(before), e, inner, t, name);
      }
      assert Parsed(es) == Store(Parsed(before), e, inner);
      hide Parsed;
    }
  }

  lemma EmptyLookup(t: FieldType, name: string)
    ensures Lookup(Parsed([]), t, name) == None
  {
  }

  lemma FieldIs(e: MapEntry, t: FieldType, name: string)
    requires IsField(e, t, name)
    ensures e.typ == t && e.name == name
  {
  }

  // ------------------------------------------------------------------------------------------
  // Round trip
  // ------------------------------------------------------------------------------------------

  ghost predicate CarriesValue(e: MapEntry, v: Value)
    decreases e, 0
  {
    match v
    case CounterValue(n) => e.typ.COUNTER? && e.counterValue == n
    case SetValue(vs) => e.typ.SET? && e.setValue == vs
    case RegisterValue(b) => e.typ.REGISTER? && e.registerValue == b
    case FlagValue(b) => e.typ.FLAG? && e.flagValue == b
    case MapValue(m) => e.typ.MAP? && Encodes(e.mapValue, m)
  }

  /** `es` lists the fields of `m`, each exactly once, in whatever order, with nested maps listed likewise. */
  ghost predicate Encodes(es: seq<MapEntry>, m: RiakMap)
    decreases es, 1
  {
    && (forall i, j :: 0 <= i < j < |es| ==> !IsField(es[i], es[j].typ, es[j].name))
    && (forall i :: 0 <= i < |es| ==>
          var v := Lookup(m, es[i].typ, es[i].name);
          v.Some? && CarriesValue(es[i], v.value))
    && (forall t, name :: Lookup(m, t, name).Some? ==> exists i :: 0 <= i < |es| && IsField(es[i], t, name))
  }

  /** Two maps with the same fields and values are the same map. */
  lemma SameLookups(m: RiakMap, m': RiakMap)
    requires forall t, name :: Lookup(m, t, name) == Lookup(m', t, name)
    ensures m == m'
  {
    forall name ensures name in m.counters <==> name in m'.counters {
      assert Lookup(m, COUNTER, name) == Lookup(m', COUNTER, name);
    }
    forall name | name in m.counters ensures m.counters[name] == m'.counters[name] {
      assert Lookup(m, COUNTER, name) == Lookup(m', COUNTER, name);
    }
    forall name ensures name in m.sets <==> name in m'.sets {
      assert Lookup(m, SET, name) == Lookup(m', SET, name);
    }
    forall name | name in m.sets ensures m.sets[name] == m'.sets[name] {
      assert Lookup(m, SET, name) == Lookup(m', SET, name);
    }
    forall name ensures name in m.registers <==> name in m'.registers {
      assert Lookup(m, REGISTER, name) == Lookup(m', REGISTER, name);
    }
    forall name | name in m.registers ensures m.registers[name] == m'.registers[name] {
      assert Lookup(m, REGISTER, name) == Lookup(m', REGISTER, name);
    }
    forall name ensures name in m.flags <==> name in m'.flags {
      assert Lookup(m, FLAG, name) == Lookup(m', FLAG, name);
    }
    forall name | name in m.flags ensures m.flags[name] == m'.flags[name] {
      assert Lookup(m, FLAG, name) == Lookup(m', FLAG, name);
    }
    forall name ensures name in m.maps <==> name in m'.maps {
      assert Lookup(m, MAP, name) == Lookup(m', MAP, name);
    }
    forall name | name in m.maps ensures m.maps[name] == m'.maps[name] {
      assert Lookup(m, MAP, name) == Lookup(m', MAP, name);
    }
  }

  lemma {:induction false} CarriedIsValue(e: MapEntry, v: Value)
    requires CarriesValue(e, v)
    ensures ValueOf(e) == v
    decreases e, 0
  {
    hide Parsed, Encodes;
    if v.MapValue? {
      ParseInvertsEncoding(e.mapValue, v.m);
    }
  }

  /** Parsing inverts writing: any map, written as entries in any order at any depth, is read back unchanged. */
  lemma {:induction false} ParseInvertsEncoding(es: seq<MapEntry>, m: RiakMap)
    requires Encodes(es, m)
    ensures Parsed(es) == m
    decreases es, 1
  {
    hide Parsed, ValueOf, CarriesValue, Lookup;
    forall t, name ensures Lookup(Parsed(es), t, name) == Lookup(m, t, name) {
      LastEntryWins(es, t, name);
      if i :| 0 <= i < |es| && IsField(es[i], t, name) {
        CarriedIsValue(es[i], Lookup(m, t, name).value);
        forall j | i < j < |es| ensures !IsField(es[j], t, name) {
          assert !IsField(es[i], es[j].typ, es[j].name);
        }
      }
    }
    SameLookups(Parsed(es), m);
  }

  /** The fields of a map. */
  function Fields(m: RiakMap): set<(FieldType, string)> {
    (set name | name in m.counters :: (COUNTER, name)) + (set name | name in m.sets :: (SET, name))
    + (set name | name in m.registers :: (REGISTER, name)) + (set name | name in m.flags :: (FLAG, name))
    + (set name | name in m.maps :: (MAP, name))
  }

  lemma FieldsAreLookups(m: RiakMap, t: FieldType, name: string)
    ensures (t, name) in Fields(m) <==> Lookup(m, t, name).Some?
  {
  }

  lemma {:induction false} WriteField(m: RiakMap, t: FieldType, name: string) returns (e: MapEntry)
    requires Lookup(m, t, name).Some?
    ensures IsField(e, t, name) && CarriesValue(e, Lookup(m, t, name).value)
    decreases m, 0
  {
    hide Encodes;
    var blank := MapEntry(name, t, 0, [], [], false, []);
    match Lookup(m, t, name).value
    case CounterValue(n) => e := blank.(counterValue := n);
    case SetValue(vs) => e := blank.(setValue := vs);
    case RegisterValue(v) => e := blank.(registerValue := v);
    case FlagValue(b) => e := blank.(flagValue := b);
    case MapValue(inner) =>
      var es := EncodingExists(m.maps[name]);
      e := blank.(mapValue := es);
  }

  ghost predicate Listed(e: MapEntry, m: RiakMap, fs: set<(FieldType, string)>) {
    && (e.typ, e.name) in fs && Lookup(m, e.typ, e.name).Some?
    && CarriesValue(e, Lookup(m, e.typ, e.name).value)
  }

  ghost predicate Lists(es: seq<MapEntry>, t: FieldType, name: string) {
    exists i :: 0 <= i < |es| && IsField(es[i], t, name)
  }

  /** `es` lists the fields in `fs`, each exactly once. */
  ghost predicate EncodesFields(es: seq<MapEntry>, m: RiakMap, fs: set<(FieldType, string)>) {
    && (forall i, j :: 0 <= i < j < |es| ==> !IsField(es[i], es[j].typ, es[j].name))
    && (forall i :: 0 <= i < |es| ==> Listed(es[i], m, fs))
    && (forall t, name :: (t, name) in fs ==> Lists(es, t, name))
  }

  lemma {:induction false} ListsMore(es: seq<MapEntry>, e: MapEntry, t: FieldType, name: string)
    requires Lists(es, t, name) || IsField(e, t, name)
    ensures Lists(es + [e], t, name)
  {
    if IsField(e, t, name) {
      assert (es + [e])[|es|] == e;
    } else {
      var i :| 0 <= i < |es| && IsField(es[i], t, name);
      assert (es + [e])[i] == es[i];
    }
  }

  lemma {:induction false} ListedMore(
    es: seq<MapEntry>, e: MapEntry, m: RiakMap, t: FieldType, name: string, fs: set<(FieldType, string)>)
    requires (t, name) in fs && EncodesFields(es, m, fs - {(t, name)})
    requires IsField(e, t, name) && Lookup(m, t, name).Some? && CarriesValue(e, Lookup(m, t, name).value)
    ensures EncodesFields(es + [e], m, fs)
  {
    hide Lookup, CarriesValue, Lists;
    forall i | 0 <= i < |es| ensures Listed(es[i], m, fs) && !IsField(es[i], t, name) {
      assert Listed(es[i], m, fs - {(t, name)});
    }
    assert Listed(e, m, fs);
    forall t', name' | (t', name') in fs ensures Lists(es + [e], t', name') {
      assert (t', name') == (t, name) || (t', name') in fs - {(t, name)};
      ListsMore(es, e, t', name');
    }
  }

  lemma {:induction false} WriteFields(m: RiakMap, fs: set<(FieldType, string)>) returns (es: seq<MapEntry>)
    requires forall t, name :: (t, name) in fs ==> Lookup(m, t, name).Some?
    ensures EncodesFields(es, m, fs)
    decreases m, |fs| + 1
  {
    es := [];
    if f :| f in fs {
      hide Lookup, CarriesValue, EncodesFields, IsField;
      var (t, name) := f;
      es := WriteFields(m, fs - {(t, name)});
      var e := WriteField(m, t, name);
      ListedMore(es, e, m, t, name, fs);
      es := es + [e];
    }
  }

  lemma {:induction false} AllFieldsListed(es: seq<MapEntry>, m: RiakMap)
    requires EncodesFields(es, m, Fields(m))
    ensures Encodes(es, m)
  {
    hide Lookup, CarriesValue, IsField, Fields;
    forall i | 0 <= i < |es|
      ensures Lookup(m, es[i].typ, es[i].name).Some?
      ensures CarriesValue(es[i], Lookup(m, es[i].typ, es[i].name).value)
    {
      assert Listed(es[i], m, Fields(m));
    }
    forall t, name | Lookup(m, t, name).Some? ensures exists i :: 0 <= i < |es| && IsField(es[i], t, name) {
      FieldsAreLookups(m, t, name);
      assert Lists(es, t, name);
    }
  }

  /** Every map can be written as entries, so there is something to parse back for each. */
  lemma {:induction false} EncodingExists(m: RiakMap) returns (es: seq<MapEntry>)
    ensures Encodes(es, m)
    decreases m, |Fields(m)| + 2
  {
    hide Lookup, EncodesFields, Encodes, Fields;
    forall t, name | (t, name) in Fields(m) ensures Lookup(m, t, name).Some? {
      FieldsAreLookups(m, t, name);
    }
    es := WriteFields(m, Fields(m));
    AllFieldsListed(es, m);
  }
}
