/**
 The Compass shell notation of BSON values and aggregation pipelines: the
 specification that the buffer-based renderer in module `CompassRenderer`
 is proved to meet, and the properties of that notation.
 */
module Compass {
  import opened Numbers
  import Hex
  import opened IsoDate
  import opened Bson

  /** The parts in order, one comma between neighbours, none at either end. */
  function Join(parts: seq<string>): string {
    if |parts| == 0 then ""
    else if |parts| == 1 then parts[0]
    else Join(parts[..|parts| - 1]) + "," + parts[|parts| - 1]
  }

  /** `"key":text`, the form of one document element or map entry. */
  function EntryText(key: string, text: string): string {
    "\"" + key + "\":" + text
  }

  /** Non-container kinds: each is one fixed template. */
  predicate IsScalar(v: Value) {
    !v.Arr? && !v.Doc? && !v.Map?
  }

  /**
   The template of each non-container kind. Only the `%v` text of an
   unrecognised value can be empty or open like an array or a document.
   */
  function ScalarText(v: Value): (r: string)
    requires IsScalar(v)
    ensures !v.Other? ==> |r| > 0 && r[0] != '[' && r[0] != '{'
  {
    match v
    case ObjectId(id) => "ObjectId(\"" + Hex.Encode(id) + "\")"
    case DateTime(ms) => "ISODate(\"" + IsoText(ms as int) + "\")"
    case Timestamp(t, i) => "Timestamp(" + NatText(t as int) + "," + NatText(i as int) + ")"
    case Decimal128(text) => "Decimal128(\"" + text + "\")"
    case Str(s) => "\"" + s + "\""
    case Int32(x) => IntText(x as int)
    case Int64(x) => IntText(x as int)
    case Bool(b) => if b then "true" else "false"
    case Null => "null"
    case Int(x) => IntText(x as int)
    case Other(text) => text
    case _ => ""
  }

  /** The Compass text of a value; arrays are bracketed, documents and maps braced. */
  function Render(v: Value): (r: string)
    ensures v.Arr? ==> |r| >= 2 && r[0] == '[' && r[|r| - 1] == ']'
    ensures (v.Doc? || v.Map?) ==> |r| >= 2 && r[0] == '{' && r[|r| - 1] == '}'
    decreases v
  {
    match v
    case Arr(items) => "[" + Join(ItemTexts(items)) + "]"
    case Doc(es) => "{" + Join(EntryTexts(es)) + "}"
    case Map(es) => "{" + Join(EntryTexts(es)) + "}"
    case _ => ScalarText(v)
  }

  /** The texts of an array's items, in order. */
  function ItemTexts(items: seq<Value>): seq<string>
    decreases items
  {
    seq(|items|, i requires 0 <= i < |items| => Render(items[i]))
  }

  /** The `"key":value` texts of a document's elements or a map's entries, in the listed order. */
  function EntryTexts(es: seq<Elem>): seq<string>
    decreases es
  {
    seq(|es|, i requires 0 <= i < |es| => EntryText(es[i].key, Render(es[i].value)))
  }

  /** The texts of a pipeline's stages, in order. */
  function StageTexts(stages: seq<Stage>): seq<string> {
    seq(|stages|, i requires 0 <= i < |stages| => Render(Doc(stages[i])))
  }

  /** The Compass text of an aggregation pipeline (`mongo.Pipeline`): a bracketed list. */
  function PipelineText(stages: seq<Stage>): (r: string)
    ensures |r| >= 2 && r[0] == '[' && r[|r| - 1] == ']'
  {
    "[" + Join(StageTexts(stages)) + "]"
  }

  // ---------------------------------------------------------------------
  // Joining
  // ---------------------------------------------------------------------

  /** Joining two non-empty runs of parts puts exactly one comma between them. */
  lemma {:induction false} JoinConcat(a: seq<string>, b: seq<string>)
    requires a != [] && b != []
    ensures Join(a + b) == Join(a) + "," + Join(b)
    decreases |b|
  {
    if |b| == 1 {
      assert (a + b)[..|a + b| - 1] == a;
    } else {
      var b' := b[..|b| - 1];
      assert (a + b)[..|a + b| - 1] == a + b';
      JoinConcat(a, b');
    }
  }

  /** Appending one part: the next comma guard of the buffer loops. */
  lemma JoinAppend(parts: seq<string>, p: string)
    ensures Join(parts + [p]) == if parts == [] then p else Join(parts) + "," + p
  {
    assert (parts + [p])[..|parts|] == parts;
  }

  /**
   One step of a buffer loop: a text holding `open` and the first `i` parts
   joined, with a comma appended when `i > 0` and then part `i`, holds `open`
   and the first `i + 1` parts joined.
   */
  lemma JoinStep(open: string, parts: seq<string>, i: nat, before: string)
    requires i < |parts| && before == open + Join(parts[..i])
    ensures (if i > 0 then before + "," else before) + parts[i] == open + Join(parts[..i + 1])
  {
    assert parts[..i + 1] == parts[..i] + [parts[i]];
    JoinAppend(parts[..i], parts[i]);
  }

  /** A bracketed list of two non-empty runs is the first list, a comma, and the second list. */
  lemma EnclosedConcat(open: string, a: seq<string>, b: seq<string>, close: string)
    requires a != [] && b != []
    ensures var whole, left, right := open + Join(a + b) + close, open + Join(a) + close, open + Join(b) + close;
      whole == left[..|left| - |close|] + "," + right[|open|..]
  {
    JoinConcat(a, b);
    var ja, jb := Join(a), Join(b);
    var left, right := open + ja + close, open + jb + close;
    assert left[..|left| - |close|] == open + ja by {
      assert left == (open + ja) + close;
    }
    assert right[|open|..] == jb + close by {
      assert right == open + (jb + close);
    }
    calc {
      open + Join(a + b) + close;
      open + (ja + "," + jb) + close;
      (open + ja) + "," + (jb + close);
    }
  }

  // ---------------------------------------------------------------------
  // Containers
  // ---------------------------------------------------------------------

  /** The empty array, document, map and pipeline. */
  lemma EmptyContainers()
    ensures Render(Arr([])) == "[]"
    ensures Render(Doc([])) == "{}"
    ensures Render(Map([])) == "{}"
    ensures PipelineText([]) == "[]"
  {
  }

  lemma ItemTextsConcat(a: seq<Value>, b: seq<Value>)
    ensures ItemTexts(a + b) == ItemTexts(a) + ItemTexts(b)
  {
  }

  lemma EntryTextsConcat(a: seq<Elem>, b: seq<Elem>)
    ensures EntryTexts(a + b) == EntryTexts(a) + EntryTexts(b)
  {
  }

  /**
   Arrays render compositionally and in order: the text of `a + b` is the
   text of `a` without its `]`, a comma, and the text of `b` without its `[`.
   */
  lemma ArrayConcat(a: seq<Value>, b: seq<Value>)
    requires a != [] && b != []
    ensures var whole, left, right := Render(Arr(a + b)), Render(Arr(a)), Render(Arr(b));
      whole == left[..|left| - 1] + "," + right[1..]
  {
    ItemTextsConcat(a, b);
    EnclosedConcat("[", ItemTexts(a), ItemTexts(b), "]");
  }

  /** The parts of a two-item array. */
  lemma ItemTextsOfTwo(x: Value, y: Value)
    ensures ItemTexts([x, y]) == [Render(x), Render(y)]
  {
    var texts := ItemTexts([x, y]);
    assert |texts| == 2 && texts[0] == Render(x) && texts[1] == Render(y);
  }

  /** A one-item array is its item's text in brackets, so with ArrayConcat `[a,b,c]` renders item by item. */
  lemma ArraySingleton(x: Value)
    ensures Render(Arr([x])) == "[" + Render(x) + "]"
  {
  }

  lemma JoinTwo(x: string, y: string)
    ensures Join([x, y]) == x + "," + y
  {
    assert [x, y][..1] == [x];
  }

  lemma JoinThree(x: string, y: string, z: string)
    ensures Join([x, y, z]) == x + "," + y + "," + z
  {
    JoinTwo(x, y);
    assert [x, y, z][..2] == [x, y];
  }

  /** Two parts between delimiters, written out. */
  lemma EnclosedTwo(open: string, x: string, y: string, close: string)
    ensures open + Join([x, y]) + close == open + x + "," + y + close
  {
    JoinTwo(x, y);
  }

  /** Ordered documents render element by element in stored order (`bson.D`). */
  lemma DocConcat(a: seq<Elem>, b: seq<Elem>)
    requires a != [] && b != []
    ensures var whole, left, right := Render(Doc(a + b)), Render(Doc(a)), Render(Doc(b));
      whole == left[..|left| - 1] + "," + right[1..]
  {
    EntryTextsConcat(a, b);
    EnclosedConcat("{", EntryTexts(a), EntryTexts(b), "}");
  }

  /** A one-element document is `{"key":value}`; this is also the form of a single-operator pipeline stage. */
  lemma DocSingleton(key: string, value: Value)
    ensures Render(Doc([Elem(key, value)])) == "{\"" + key + "\":" + Render(value) + "}"
  {
  }

  /** The part of a one-element document or map. */
  lemma EntryTextsOfOne(e: Elem)
    ensures EntryTexts([e]) == [EntryText(e.key, Render(e.value))]
  {
    var texts := EntryTexts([e]);
    assert |texts| == 1 && texts[0] == EntryText(e.key, Render(e.value));
  }

  /** The parts of a two-element document or map. */
  lemma EntryTextsOfTwo(e1: Elem, e2: Elem)
    ensures EntryTexts([e1, e2]) == [EntryText(e1.key, Render(e1.value)), EntryText(e2.key, Render(e2.value))]
  {
    var texts := EntryTexts([e1, e2]);
    assert |texts| == 2;
    assert texts[0] == EntryText(e1.key, Render(e1.value)) && texts[1] == EntryText(e2.key, Render(e2.value));
  }

  /** A repeated key is emitted once per occurrence, in order: duplicates are neither merged nor dropped. */
  lemma DocKeepsDuplicates(key: string, v: Value, tv: string, w: Value, tw: string)
    requires Render(v) == tv && Render(w) == tw
    ensures Render(Doc([Elem(key, v), Elem(key, w)])) == "{" + EntryText(key, tv) + "," + EntryText(key, tw) + "}"
  {
    EntryTextsOfTwo(Elem(key, v), Elem(key, w));
    EnclosedTwo("{", EntryText(key, tv), EntryText(key, tw), "}");
  }

  /** The `bson.M` branch writes exactly what the `bson.D` branch writes for the same entries in the same order. */
  lemma MapRendersAsDoc(es: seq<Elem>)
    ensures Render(Map(es)) == Render(Doc(es))
  {
  }

  /**
   In the rendering of a well-formed map, there is one `"key":value` part per
   key of the map, and each part shows the map's value for its key.
   */
  lemma MapEntriesOnce(es: seq<Elem>)
    requires KeysDistinct(es)
    ensures |EntryTexts(es)| == |MapOf(es)|
    ensures forall i :: 0 <= i < |es| ==>
      es[i].key in MapOf(es) && EntryTexts(es)[i] == EntryText(es[i].key, Render(MapOf(es)[es[i].key]))
  {
    EnumerationLength(es);
    MapOfEntries(es);
    forall i | 0 <= i < |es|
      ensures es[i].key in MapOf(es) && MapOf(es)[es[i].key] == es[i].value
    {
      assert es[i] in es;
    }
  }

  lemma {:induction false} EntryTextsPermutation(a: seq<Elem>, b: seq<Elem>)
    requires multiset(a) == multiset(b)
    ensures multiset(EntryTexts(a)) == multiset(EntryTexts(b))
    decreases |a|
  {
    if a != [] {
      var x := a[|a| - 1];
      var a' := a[..|a| - 1];
      assert a == a' + [x];
      assert x in multiset(b);
      var j :| 0 <= j < |b| && b[j] == x;
      var b' := b[..j] + b[j + 1..];
      assert b == b[..j] + [x] + b[j + 1..];
      assert multiset(b') == multiset(b) - multiset{x} by {
        assert multiset(b) == multiset(b[..j]) + multiset{x} + multiset(b[j + 1..]);
        assert multiset(b') == multiset(b[..j]) + multiset(b[j + 1..]);
      }
      assert multiset(a') == multiset(a) - multiset{x};
      EntryTextsPermutation(a', b');
      EntryTextsConcat(a', [x]);
      EntryTextsConcat(b[..j], [x]);
      EntryTextsConcat(b[..j] + [x], b[j + 1..]);
      EntryTextsConcat(b[..j], b[j + 1..]);
    }
  }

  /**
   Go's map iteration order is unspecified, and this is all the model
   promises about a `bson.M`: any two iteration orders of the same map
   list the same entries, so their renderings are made of the same
   `"key":value` parts, possibly in a different order.
   */
  lemma MapRenderingUpToOrder(es1: seq<Elem>, es2: seq<Elem>)
    requires KeysDistinct(es1) && KeysDistinct(es2)
    requires MapOf(es1) == MapOf(es2)
    ensures multiset(es1) == multiset(es2)
    ensures multiset(EntryTexts(es1)) == multiset(EntryTexts(es2))
  {
    EnumerationsArePermutations(es1, es2);
    EntryTextsPermutation(es1, es2);
  }

  // ---------------------------------------------------------------------
  // Pipelines
  // ---------------------------------------------------------------------

  /** The parts of a three-stage pipeline. */
  lemma StageTextsOfThree(s1: Stage, s2: Stage, s3: Stage)
    ensures StageTexts([s1, s2, s3]) == [Render(Doc(s1)), Render(Doc(s2)), Render(Doc(s3))]
  {
    var texts := StageTexts([s1, s2, s3]);
    assert |texts| == 3;
    assert texts[0] == Render(Doc(s1)) && texts[1] == Render(Doc(s2)) && texts[2] == Render(Doc(s3));
  }

  /** A pipeline renders as the array of its stage documents. */
  lemma PipelineIsArrayOfStages(stages: seq<Stage>)
    ensures PipelineText(stages) == Render(Arr(seq(|stages|, i requires 0 <= i < |stages| => Doc(stages[i]))))
  {
    var items := seq(|stages|, i requires 0 <= i < |stages| => Doc(stages[i]));
    assert ItemTexts(items) == StageTexts(stages);
  }

  /** Stages are neither reordered nor filtered: the pipeline `a + b` renders as `a`'s list continued by `b`'s. */
  lemma PipelineConcat(a: seq<Stage>, b: seq<Stage>)
    requires a != [] && b != []
    ensures var whole, left, right := PipelineText(a + b), PipelineText(a), PipelineText(b);
      whole == left[..|left| - 1] + "," + right[1..]
  {
    assert StageTexts(a + b) == StageTexts(a) + StageTexts(b);
    EnclosedConcat("[", StageTexts(a), StageTexts(b), "]");
  }

  /** A pipeline of single-operator stages lists `{"$op":argument}` for each stage, in order. */
  lemma PipelineOfOperators(ops: seq<string>, args: seq<Value>)
    requires |ops| == |args|
    ensures var stages := seq(|ops|, i requires 0 <= i < |ops| => [Elem(ops[i], args[i])]);
      PipelineText(stages) == "[" + Join(seq(|ops|, i requires 0 <= i < |ops| => "{\"" + ops[i] + "\":" + Render(args[i]) + "}")) + "]"
  {
    var stages := seq(|ops|, i requires 0 <= i < |ops| => [Elem(ops[i], args[i])]);
    forall i | 0 <= i < |ops| ensures StageTexts(stages)[i] == "{\"" + ops[i] + "\":" + Render(args[i]) + "}" {
      DocSingleton(ops[i], args[i]);
    }
    assert StageTexts(stages) == seq(|ops|, i requires 0 <= i < |ops| => "{\"" + ops[i] + "\":" + Render(args[i]) + "}");
  }

  // ---------------------------------------------------------------------
  // Scalars and extended types
  // ---------------------------------------------------------------------

  /**
   A string is written verbatim between double quotes: nothing inside is
   escaped, so the text has exactly two more characters than the string.
   */
  lemma StringVerbatim(s: string)
    ensures var r := Render(Str(s));
      |r| == |s| + 2 && r[0] == '"' && r[|r| - 1] == '"' && r[1..|r| - 1] == s
  {
  }

  /**
   Because quotes are not escaped, different values can share a text: the
   one-string array `["a","b"]`, whose string holds `a","b`, renders like the
   two-string array of `a` and `b`.
   */
  lemma UnescapedQuotesCollide()
    ensures Arr([Str("a\",\"b")]) != Arr([Str("a"), Str("b")])
    ensures Render(Arr([Str("a\",\"b")])) == Render(Arr([Str("a"), Str("b")]))
  {
    ArraySingleton(Str("a\",\"b"));
    ItemTextsOfTwo(Str("a"), Str("b"));
    EnclosedTwo("[", Render(Str("a")), Render(Str("b")), "]");
    QuotesGlue();
  }

  lemma QuotesGlue()
    ensures "[" + ("\"" + "a\",\"b" + "\"") + "]" == "[" + ("\"" + "a" + "\"") + "," + ("\"" + "b" + "\"") + "]"
  {
  }

  /** `nil` is `null`; booleans are `true` and `false`; any other Go value shows its `%v` text. */
  lemma Literals(b: bool, text: string)
    ensures Render(Null) == "null"
    ensures Render(Bool(b)) == (if b then "true" else "false")
    ensures Render(Other(text)) == text
  {
  }

  /** The integer kinds print in plain decimal, with a '-' for negatives, that reads back as the integer. */
  lemma IntegerText(v: Value)
    requires v.Int32? || v.Int64? || v.Int?
    ensures SignedCanonical(Render(v))
    ensures ParseInt(Render(v)) == (if v.Int32? then v.i32 as int else if v.Int64? then v.i64 as int else v.n as int)
  {
    match v
    case Int32(x) => IntTextRoundTrip(x as int);
    case Int64(x) => IntTextRoundTrip(x as int);
    case Int(x) => IntTextRoundTrip(x as int);
  }

  /** `Timestamp(T,I)`: the two fields in plain decimal, split by the only comma, no spaces. */
  lemma TimestampText(t: UInt32, i: UInt32)
    ensures var r := Render(Timestamp(t, i));
      && r[..10] == "Timestamp(" && r[|r| - 1] == ')'
      && exists j :: 10 <= j < |r| - 1 && r[j] == ',' && Canonical(r[10..j]) && ParseNat(r[10..j]) == t as int
                  && Canonical(r[j + 1..|r| - 1]) && ParseNat(r[j + 1..|r| - 1]) == i as int
  {
    var a, b := NatText(t as int), NatText(i as int);
    var r := Render(Timestamp(t, i));
    assert r == ScalarText(Timestamp(t, i));
    assert r == "Timestamp(" + a + "," + b + ")";
    var j := 10 + |a|;
    assert r[10..j] == a && r[j] == ',' && r[j + 1..|r| - 1] == b;
    ParseNatText(t as int);
    ParseNatText(i as int);
  }

  /** `ObjectId("…")` holds 24 lowercase hex digits that decode to the identifier's 12 bytes. */
  lemma ObjectIdText(id: ObjectIdBytes)
    ensures var r := Render(ObjectId(id));
      && |r| == 36 && r[..10] == "ObjectId(\"" && r[34..] == "\")"
      && Hex.IsHexText(r[10..34]) && Hex.Decode(r[10..34]) == id
  {
    var r := Render(ObjectId(id));
    assert r == "ObjectId(\"" + Hex.Encode(id) + "\")";
    assert r[10..34] == Hex.Encode(id);
    Hex.DecodeEncode(id);
  }

  /**
   `ISODate("…")` holds the RFC 3339 text of the instant in UTC; for the
   years 0000 to 9999 that text has the 20-character layout and names the
   instant's second, the milliseconds truncated toward the past.
   */
  lemma DateTimeText(ms: Int64)
    requires 0 <= CivilFromDays(UnixSeconds(ms as int) / 86400).year <= 9999
    ensures var r := Render(DateTime(ms));
      && |r| == 31 && r[..9] == "ISODate(\"" && r[29..] == "\")"
      && IsoShaped(r[9..29]) && IsoSeconds(r[9..29]) == (ms as int) / 1000
  {
    IsoTextRoundTrip(ms as int);
    UnixSecondsFloor(ms as int);
    var r := Render(DateTime(ms));
    assert r == "ISODate(\"" + IsoText(ms as int) + "\")";
    assert r[9..29] == IsoText(ms as int);
  }

  /** `Decimal128("…")` holds the decimal's own canonical text, unchanged. */
  lemma DecimalText(text: string)
    ensures var r := Render(Decimal128(text));
      |r| == |text| + 14 && r[..12] == "Decimal128(\"" && r[|r| - 2..] == "\")" && r[12..|r| - 2] == text
  {
  }
}
