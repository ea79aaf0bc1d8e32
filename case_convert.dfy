/** The key-style converters of shared/index.py: `to_camel_case` for data
    sent to the frontend and `to_snake_case` for data received from it.
    Each builds a fresh dict whose keys are the converted keys, converting
    nested dicts and the dict elements of lists. */
module CaseConvert {
  import opened Wrappers
  import opened Text
  import opened Json

  // ---------------------------------------------------------------------------
  // Key transforms

  /** `str.title()` on the rest of a word, given whether the character before
      it is cased: a letter after a cased character is lower-cased, any other
      letter upper-cased. */
  function TitleFrom(s: string, prevCased: bool): (r: string)
    ensures |r| == |s|
    ensures forall i :: 0 <= i < |s| ==> ToLowerChar(r[i]) == ToLowerChar(s[i])
  {
    if s == [] then []
    else [if prevCased then ToLowerChar(s[0]) else ToUpperChar(s[0])] + TitleFrom(s[1..], IsLetter(s[0]))
  }

  /** `str.title()` */
  function Title(s: string): (r: string)
    ensures |r| == |s|
    ensures forall i :: 0 <= i < |s| ==> ToLowerChar(r[i]) == ToLowerChar(s[i])
  {
    TitleFrom(s, false)
  }

  /** `''.join(x.title() for x in parts)` */
  function TitleAll(parts: seq<string>): (r: string)
  {
    if parts == [] then [] else Title(parts[0]) + TitleAll(parts[1..])
  }

  /** The camelCase key: the first '_'-separated component as it is, then
      every later component title-cased. */
  function CamelKey(key: string): (r: string)
  {
    var comps := Split(key, '_');
    comps[0] + TitleAll(comps[1..])
  }

  /** `re.sub(r'(?=[A-Z])', '_', s)`: a '_' before each capital letter. */
  function MarkCapitals(s: string): (r: string)
    ensures |r| >= |s|
  {
    if s == [] then [] else (if IsUpper(s[0]) then "_" else "") + [s[0]] + MarkCapitals(s[1..])
  }

  /** The snake_case key: a '_' before every capital letter except one at the
      start (the `(?<!^)` look-behind), then the whole key lower-cased. */
  function SnakeKey(key: string): (r: string)
    ensures |r| >= |key|
    ensures forall i :: 0 <= i < |r| ==> !IsUpper(r[i])
  {
    if key == [] then [] else Lower([key[0]] + MarkCapitals(key[1..]))
  }

  datatype KeyStyle = Camel | Snake

  function ConvertKey(style: KeyStyle, key: string): string
  {
    match style
    case Camel => CamelKey(key)
    case Snake => SnakeKey(key)
  }

  /** A key without '_' is its own camelCase key. */
  lemma CamelKeyWithoutUnderscore(key: string)
    requires '_' !in key
    ensures CamelKey(key) == key
  {
    assert Split(key, '_') == [key];
  }

  /** Title-casing only changes case, so a camelCase key holds no '_'. */
  lemma CamelKeyHasNoUnderscore(key: string)
    ensures '_' !in CamelKey(key)
  {
    var comps := Split(key, '_');
    TitleAllHasNoUnderscore(comps[1..]);
  }

  lemma {:induction false} TitleAllHasNoUnderscore(parts: seq<string>)
    requires forall i :: 0 <= i < |parts| ==> '_' !in parts[i]
    ensures '_' !in TitleAll(parts)
  {
    if parts != [] {
      TitleAllHasNoUnderscore(parts[1..]);
      var w := parts[0];
      forall i | 0 <= i < |w|
        ensures Title(w)[i] != '_'
      {
        assert ToLowerChar(Title(w)[i]) == ToLowerChar(w[i]);
        assert w[i] != '_';
      }
    }
  }

  lemma {:induction false} MarkCapitalsNone(s: string)
    requires forall i :: 0 <= i < |s| ==> !IsUpper(s[i])
    ensures MarkCapitals(s) == s
  {
    if s != [] {
      MarkCapitalsNone(s[1..]);
    }
  }

  lemma LowerNoCapitals(s: string)
    requires forall i :: 0 <= i < |s| ==> !IsUpper(s[i])
    ensures Lower(s) == s
  {
    assert forall i :: 0 <= i < |s| ==> Lower(s)[i] == s[i];
  }

  /** A key without capital letters is its own snake_case key. */
  lemma SnakeKeyWithoutCapitals(key: string)
    requires forall i :: 0 <= i < |key| ==> !IsUpper(key[i])
    ensures SnakeKey(key) == key
  {
    if key != [] {
      MarkCapitalsNone(key[1..]);
      assert [key[0]] + key[1..] == key;
      LowerNoCapitals(key);
    }
  }

  // ---------------------------------------------------------------------------
  // The round trip on snake_case keys

  /** A component of a snake_case key: one or more lower-case letters. */
  predicate SnakeWord(w: string)
  {
    w != [] && forall i :: 0 <= i < |w| ==> IsLower(w[i])
  }

  /** A key made of snake_case words joined by single '_'. */
  predicate SnakeCaseKey(key: string)
  {
    var comps := Split(key, '_');
    forall i :: 0 <= i < |comps| ==> SnakeWord(comps[i])
  }

  lemma {:induction false} TitleFromLower(s: string)
    requires forall i :: 0 <= i < |s| ==> IsLower(s[i])
    ensures TitleFrom(s, true) == s
  {
    if s != [] {
      TitleFromLower(s[1..]);
    }
  }

  /** A snake_case word title-cases to its first letter capitalised. */
  lemma TitleWord(w: string)
    requires SnakeWord(w)
    ensures Title(w) == [ToUpperChar(w[0])] + w[1..]
  {
    TitleFromLower(w[1..]);
  }

  lemma {:induction false} MarkCapitalsAppend(a: string, b: string)
    ensures MarkCapitals(a + b) == MarkCapitals(a) + MarkCapitals(b)
  {
    if a != [] {
      assert (a + b)[1..] == a[1..] + b;
      MarkCapitalsAppend(a[1..], b);
    } else {
      assert a + b == b;
    }
  }

  /** `"_" + "_".join(parts)` for every part: the tail of a join. */
  function UnderscoreEach(parts: seq<string>): (r: string)
  {
    if parts == [] then [] else "_" + parts[0] + UnderscoreEach(parts[1..])
  }

  lemma {:induction false} JoinUnderscoreEach(parts: seq<string>)
    requires |parts| >= 1
    ensures Join(parts, "_") == parts[0] + UnderscoreEach(parts[1..])
  {
    if |parts| > 1 {
      JoinUnderscoreEach(parts[1..]);
      assert parts[1..][1..] == parts[2..];
    }
  }

  lemma {:induction false} SnakeOfTitles(parts: seq<string>)
    requires forall i :: 0 <= i < |parts| ==> SnakeWord(parts[i])
    ensures Lower(MarkCapitals(TitleAll(parts))) == UnderscoreEach(parts)
  {
    if parts != [] {
      var w := parts[0];
      TitleWord(w);
      SnakeOfTitles(parts[1..]);
      MarkCapitalsAppend(Title(w), TitleAll(parts[1..]));
      MarkCapitalsAppend([ToUpperChar(w[0])], w[1..]);
      MarkCapitalsNone(w[1..]);
      assert MarkCapitals([ToUpperChar(w[0])]) == "_" + [ToUpperChar(w[0])];
      LowerAppend(MarkCapitals(Title(w)), MarkCapitals(TitleAll(parts[1..])));
      LowerAppend("_" + [ToUpperChar(w[0])], w[1..]);
      LowerNoCapitals(w[1..]);
      assert Lower("_" + [ToUpperChar(w[0])]) == "_" + [w[0]];
      assert [w[0]] + w[1..] == w;
    }
  }

  /** A snake_case key survives the trip to camelCase and back. */
  lemma SnakeCamelRoundTrip(key: string)
    requires SnakeCaseKey(key)
    ensures SnakeKey(CamelKey(key)) == key
  {
    var comps := Split(key, '_');
    var c0 := comps[0];
    assert SnakeWord(c0);
    var t := TitleAll(comps[1..]);
    var camel := CamelKey(key);
    assert camel == c0 + t;
    assert camel[1..] == c0[1..] + t;
    MarkCapitalsAppend(c0[1..], t);
    MarkCapitalsNone(c0[1..]);
    var marked := [camel[0]] + MarkCapitals(camel[1..]);
    assert marked == c0 + MarkCapitals(t);
    SnakeOfTitles(comps[1..]);
    LowerAppend(c0, MarkCapitals(t));
    LowerNoCapitals(c0);
    assert SnakeKey(camel) == c0 + UnderscoreEach(comps[1..]);
    JoinUnderscoreEach(comps);
    JoinSplit(key, '_');
  }

  // ---------------------------------------------------------------------------
  // Building the result dict

  /** Where `key` sits in a dict: its last index, or -1 when absent. */
  function KeyIndex(fields: seq<Field>, key: string): (r: int)
    ensures -1 <= r < |fields|
    ensures r >= 0 ==> fields[r].key == key
    ensures forall j :: r < j < |fields| ==> fields[j].key != key
  {
    if fields == [] then -1
    else if fields[|fields| - 1].key == key then |fields| - 1
    else KeyIndex(fields[..|fields| - 1], key)
  }

  /** `result[key] = value`: an existing key keeps its place and takes the
      new value; a new key is added at the end. */
  function Put(fields: seq<Field>, key: string, value: Json): (r: seq<Field>)
    ensures key in Keys(fields) ==> Keys(r) == Keys(fields)
    ensures key !in Keys(fields) ==> Keys(r) == Keys(fields) + [key]
  {
    var i := KeyIndex(fields, key);
    if i >= 0 then
      assert Keys(fields[i := Field(key, value)]) == Keys(fields);
      fields[i := Field(key, value)]
    else
      assert key !in Keys(fields);
      fields + [Field(key, value)]
  }

  /** The item at `i` is the one `Get` finds when no later item has its key. */
  lemma {:induction false} GetLastOccurrence(fields: seq<Field>, i: int)
    requires 0 <= i < |fields|
    requires forall j :: i < j < |fields| ==> fields[j].key != fields[i].key
    ensures Get(fields, fields[i].key) == Some(fields[i].value)
  {
    if i < |fields| - 1 {
      GetLastOccurrence(fields[..|fields| - 1], i);
    }
  }

  /** Changing one item leaves `Get` of every other key alone. */
  lemma {:induction false} GetUpdateOther(fields: seq<Field>, i: int, f: Field, other: string)
    requires 0 <= i < |fields|
    requires fields[i].key != other && f.key != other
    ensures Get(fields[i := f], other) == Get(fields, other)
  {
    var n := |fields|;
    if i < n - 1 {
      assert fields[i := f][..n - 1] == fields[..n - 1][i := f];
      GetUpdateOther(fields[..n - 1], i, f, other);
    } else {
      assert fields[i := f][..n - 1] == fields[..n - 1];
    }
  }

  /** After `result[key] = value` the key reads back as `value`, and every
      other key reads as before. */
  lemma PutGet(fields: seq<Field>, key: string, value: Json, other: string)
    ensures Get(Put(fields, key, value), key) == Some(value)
    ensures other != key ==> Get(Put(fields, key, value), other) == Get(fields, other)
  {
    var r := Put(fields, key, value);
    var i := KeyIndex(fields, key);
    if i >= 0 {
      GetLastOccurrence(r, i);
      if other != key {
        GetUpdateOther(fields, i, Field(key, value), other);
      }
    } else {
      GetLastOccurrence(r, |fields|);
      assert r[..|r| - 1] == fields;
    }
  }

  /** Putting into a dict keeps its keys distinct. */
  lemma PutDistinct(fields: seq<Field>, key: string, value: Json)
    requires DistinctKeys(fields)
    ensures DistinctKeys(Put(fields, key, value))
  {
    var r := Put(fields, key, value);
    forall i, j | 0 <= i < j < |r|
      ensures r[i].key != r[j].key
    {
      assert Keys(r)[i] == r[i].key && Keys(r)[j] == r[j].key;
      if j < |fields| {
        assert Keys(fields)[i] == fields[i].key && Keys(fields)[j] == fields[j].key;
      }
    }
  }

  // ---------------------------------------------------------------------------
  // The conversion, as a specification

  /** The converted value stored under the converted key: dicts are
      converted, lists have their dict elements converted, and anything else
      is kept. */
  function ConvertValue(style: KeyStyle, v: Json): Json
    decreases v
  {
    match v
    case JObject(fields) => JObject(ConvertFields(style, fields))
    case JList(items) => JList(ConvertItems(style, items))
    case _ => v
  }

  /** An element of a list: a dict is converted, anything else is kept
      (a list inside a list included). */
  function ConvertItem(style: KeyStyle, item: Json): Json
    decreases item
  {
    if item.JObject? then JObject(ConvertFields(style, item.fields)) else item
  }

  function ConvertItems(style: KeyStyle, items: seq<Json>): (r: seq<Json>)
    ensures |r| == |items|
    ensures forall i :: 0 <= i < |items| ==> r[i] == ConvertItem(style, items[i])
    decreases items
  {
    if items == [] then []
    else ConvertItems(style, items[..|items| - 1]) + [ConvertItem(style, items[|items| - 1])]
  }

  /** The result dict after the loop has put every item of `fields`, in
      order, under its converted key. */
  function ConvertFields(style: KeyStyle, fields: seq<Field>): (r: seq<Field>)
    decreases fields
  {
    if fields == [] then []
    else
      var last := fields[|fields| - 1];
      Put(ConvertFields(style, fields[..|fields| - 1]), ConvertKey(style, last.key), ConvertValue(style, last.value))
  }

  // ---------------------------------------------------------------------------
  // to_camel_case and to_snake_case

  /** The loop of `to_camel_case` (style Camel) and `to_snake_case` (style
      Snake): each item is converted, recursing into a dict value and into
      the dict elements of a list value, and stored in the result under its
      converted key. */
  method ConvertObject(style: KeyStyle, fields: seq<Field>) returns (result: seq<Field>)
    ensures result == ConvertFields(style, fields)
    decreases fields
  {
    result := [];
    for i := 0 to |fields|
      invariant result == ConvertFields(style, fields[..i])
    {
      var key := ConvertKey(style, fields[i].key);
      var converted := ConvertNested(style, fields[i].value);
      ConvertFieldsStep(style, fields, i);
      result := Put(result, key, converted);
    }
    assert fields[..|fields|] == fields;
  }

  /** The branches on the value's type inside the loop. */
  method ConvertNested(style: KeyStyle, value: Json) returns (converted: Json)
    ensures converted == ConvertValue(style, value)
    decreases value
  {
    match value {
      case JObject(nested) =>
        var inner := ConvertObject(style, nested);
        converted := JObject(inner);
      case JList(items) =>
        var out := ConvertList(style, items);
        converted := JList(out);
      case _ =>
        converted := value;
    }
  }

  lemma ConvertFieldsStep(style: KeyStyle, fields: seq<Field>, i: int)
    requires 0 <= i < |fields|
    ensures ConvertFields(style, fields[..i + 1])
            == Put(ConvertFields(style, fields[..i]), ConvertKey(style, fields[i].key), ConvertValue(style, fields[i].value))
  {
    assert fields[..i + 1][..i] == fields[..i];
  }

  /** The list comprehension over a list value. */
  method ConvertList(style: KeyStyle, items: seq<Json>) returns (out: seq<Json>)
    ensures out == ConvertItems(style, items)
    decreases items
  {
    out := [];
    for i := 0 to |items|
      invariant out == ConvertItems(style, items[..i])
    {
      var item := items[i];
      if item.JObject? {
        var inner := ConvertObject(style, item.fields);
        out := out + [JObject(inner)];
      } else {
        out := out + [item];
      }
      assert items[..i + 1][..i] == items[..i];
    }
    assert items[..|items|] == items;
  }

  // ---------------------------------------------------------------------------
  // Properties of the conversion

  /** The result's keys are exactly the converted keys of the input, each
      once. */
  lemma {:induction false} ConvertedKeys(style: KeyStyle, fields: seq<Field>)
    ensures DistinctKeys(ConvertFields(style, fields))
    ensures forall k :: k in Keys(ConvertFields(style, fields)) <==>
                        exists i :: 0 <= i < |fields| && ConvertKey(style, fields[i].key) == k
  {
    if fields != [] {
      var init := fields[..|fields| - 1];
      var last := fields[|fields| - 1];
      ConvertedKeys(style, init);
      var prev := ConvertFields(style, init);
      PutDistinct(prev, ConvertKey(style, last.key), ConvertValue(style, last.value));
      forall k | exists i :: 0 <= i < |fields| && ConvertKey(style, fields[i].key) == k
        ensures k in Keys(ConvertFields(style, fields))
      {
        var i :| 0 <= i < |fields| && ConvertKey(style, fields[i].key) == k;
        if i < |fields| - 1 {
          assert init[i] == fields[i];
        }
      }
      forall k | k in Keys(ConvertFields(style, fields))
        ensures exists i :: 0 <= i < |fields| && ConvertKey(style, fields[i].key) == k
      {
        if k in Keys(prev) {
          var i :| 0 <= i < |init| && ConvertKey(style, init[i].key) == k;
          assert fields[i] == init[i];
        } else {
          assert ConvertKey(style, fields[|fields| - 1].key) == k;
        }
      }
    }
  }

  /** When several keys convert to the same key, the value of the last of
      them is the one kept, converted. */
  lemma {:induction false} LaterWins(style: KeyStyle, fields: seq<Field>, i: int)
    requires 0 <= i < |fields|
    requires forall j :: i < j < |fields| ==> ConvertKey(style, fields[j].key) != ConvertKey(style, fields[i].key)
    ensures Get(ConvertFields(style, fields), ConvertKey(style, fields[i].key)) == Some(ConvertValue(style, fields[i].value))
  {
    var init := fields[..|fields| - 1];
    var last := fields[|fields| - 1];
    var k := ConvertKey(style, fields[i].key);
    PutGet(ConvertFields(style, init), ConvertKey(style, last.key), ConvertValue(style, last.value), k);
    if i < |fields| - 1 {
      assert init[i] == fields[i];
      LaterWins(style, init, i);
    }
  }

  // ---------------------------------------------------------------------------
  // The round trip on snake_case dicts

  /** Every item put under its converted key, in order. */
  function MapFields(style: KeyStyle, fields: seq<Field>): (r: seq<Field>)
    ensures |r| == |fields|
    ensures forall i :: 0 <= i < |fields| ==>
              r[i] == Field(ConvertKey(style, fields[i].key), ConvertValue(style, fields[i].value))
  {
    if fields == [] then []
    else
      var last := fields[|fields| - 1];
      MapFields(style, fields[..|fields| - 1]) + [Field(ConvertKey(style, last.key), ConvertValue(style, last.value))]
  }

  /** When no two keys convert to the same key, the result lists every item,
      converted, in the input's order. */
  lemma {:induction false} NoCollisions(style: KeyStyle, fields: seq<Field>)
    requires forall i, j :: 0 <= i < j < |fields| ==> ConvertKey(style, fields[i].key) != ConvertKey(style, fields[j].key)
    ensures ConvertFields(style, fields) == MapFields(style, fields)
  {
    if fields != [] {
      var init := fields[..|fields| - 1];
      var last := fields[|fields| - 1];
      NoCollisions(style, init);
    }
  }

  /** A dict the camelCase conversion inverts: distinct snake_case keys, and
      values of the same kind wherever the conversion recurses. */
  predicate SnakeShaped(v: Json)
    decreases v
  {
    match v
    case JObject(fields) => SnakeShapedFields(fields)
    case JList(items) => forall i :: 0 <= i < |items| ==> items[i].JObject? ==> SnakeShaped(items[i])
    case _ => true
  }

  predicate SnakeShapedFields(fields: seq<Field>)
    decreases fields
  {
    && DistinctKeys(fields)
    && forall i :: 0 <= i < |fields| ==> SnakeCaseKey(fields[i].key) && SnakeShaped(fields[i].value)
  }

  /** `to_snake_case(to_camel_case(d)) == d` for a snake_case dict. */
  lemma RoundTripFields(fields: seq<Field>)
    requires SnakeShapedFields(fields)
    ensures ConvertFields(Snake, ConvertFields(Camel, fields)) == fields
    decreases fields, 0
  {
    forall i, j | 0 <= i < j < |fields|
      ensures CamelKey(fields[i].key) != CamelKey(fields[j].key)
    {
      SnakeCamelRoundTrip(fields[i].key);
      SnakeCamelRoundTrip(fields[j].key);
    }
    NoCollisions(Camel, fields);
    var camel := MapFields(Camel, fields);
    forall i | 0 <= i < |fields|
      ensures SnakeKey(camel[i].key) == fields[i].key
      ensures ConvertValue(Snake, camel[i].value) == fields[i].value
    {
      SnakeCamelRoundTrip(fields[i].key);
      RoundTripValue(fields[i].value);
    }
    NoCollisions(Snake, camel);
  }

  lemma RoundTripValue(v: Json)
    requires SnakeShaped(v)
    ensures ConvertValue(Snake, ConvertValue(Camel, v)) == v
    decreases v, 1
  {
    match v
    case JObject(fields) => RoundTripFields(fields);
    case JList(items) => RoundTripItems(items);
    case _ =>
  }

  lemma RoundTripItems(items: seq<Json>)
    requires forall i :: 0 <= i < |items| ==> items[i].JObject? ==> SnakeShaped(items[i])
    ensures ConvertItems(Snake, ConvertItems(Camel, items)) == items
    decreases items, 0
  {
    var camel := ConvertItems(Camel, items);
    var back := ConvertItems(Snake, camel);
    forall i | 0 <= i < |items|
      ensures back[i] == items[i]
    {
      RoundTripItem(items[i]);
    }
  }

  lemma RoundTripItem(item: Json)
    requires item.JObject? ==> SnakeShaped(item)
    ensures ConvertItem(Snake, ConvertItem(Camel, item)) == item
    decreases item, 0
  {
    if item.JObject? {
      RoundTripFields(item.fields);
    }
  }
}
