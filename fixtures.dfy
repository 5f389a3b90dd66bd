/**
 Concrete scenarios of the renderer's test table, stated as lemmas about the
 specification in module `Compass`.

 Each scenario is proved in three steps: the structure of the value gives
 its text as a concatenation of the texts of its parts (the `...Parts`
 lemmas, through the shape lemmas below), the parts are computed one by one,
 and a lemma about strings alone (the `...Glue` lemmas) flattens the
 concatenation into the expected literal. A `bson.M` of a scenario is given
 in the iteration order under which the expected text arises;
 `MatchStageOrder` shows that the other order of the same map gives another
 text.
 */
module Fixtures {
  import opened Numbers
  import Hex
  import opened IsoDate
  import opened Bson
  import opened Compass

  /** The identifier of the scenarios, as given to `primitive.ObjectIDFromHex`. */
  const OidText: string := "670ef82ee2cfc8452bea7023"

  /** `ObjectIDFromHex` succeeds on that text: it denotes twelve bytes whose hex text it is. */
  lemma OidFromHex()
    ensures Hex.IsHexText(OidText) && |Hex.Decode(OidText)| == 12
    ensures Hex.Encode(Hex.Decode(OidText)) == OidText
  {
    assert Hex.IsHexText(OidText);
    Hex.EncodeDecode(OidText);
  }

  // Shapes, in terms of the texts of the parts.

  /** The text of a one-element document or map whose value renders as `t`. */
  function Single(k: string, t: string): string {
    "{" + EntryText(k, t) + "}"
  }

  lemma MapOfOne(k: string, v: Value, t: string)
    requires Render(v) == t
    ensures Render(Map([Elem(k, v)])) == Single(k, t)
  {
    EntryTextsOfOne(Elem(k, v));
  }

  lemma MapOfTwo(k1: string, v1: Value, t1: string, k2: string, v2: Value, t2: string)
    requires Render(v1) == t1 && Render(v2) == t2
    ensures Render(Map([Elem(k1, v1), Elem(k2, v2)])) == "{" + EntryText(k1, t1) + "," + EntryText(k2, t2) + "}"
  {
    EntryTextsOfTwo(Elem(k1, v1), Elem(k2, v2));
    EnclosedTwo("{", EntryText(k1, t1), EntryText(k2, t2), "}");
  }

  lemma JoinFour(w: string, x: string, y: string, z: string)
    ensures Join([w, x, y, z]) == w + "," + x + "," + y + "," + z
  {
    JoinThree(w, x, y);
    assert [w, x, y, z][..3] == [w, x, y];
  }

  lemma ArrayOfFour(a: Value, ta: string, b: Value, tb: string, c: Value, tc: string, d: Value, td: string)
    requires Render(a) == ta && Render(b) == tb && Render(c) == tc && Render(d) == td
    ensures Render(Arr([a, b, c, d])) == "[" + Join([ta, tb, tc, td]) + "]"
  {
    var texts := ItemTexts([a, b, c, d]);
    assert |texts| == 4;
    assert texts[0] == ta && texts[1] == tb && texts[2] == tc && texts[3] == td;
    assert texts == [ta, tb, tc, td];
  }

  lemma StageOfOne(op: string, arg: Value, t: string)
    requires Render(arg) == t
    ensures Render(Doc([Elem(op, arg)])) == Single(op, t)
  {
    EntryTextsOfOne(Elem(op, arg));
  }

  lemma PipelineOfOne(op: string, arg: Value, t: string)
    requires Render(arg) == t
    ensures PipelineText([[Elem(op, arg)]]) == "[" + Single(op, t) + "]"
  {
    StageOfOne(op, arg, t);
    assert StageTexts([[Elem(op, arg)]]) == [Single(op, t)];
  }

  lemma PipelineOfThree(o1: string, a1: Value, t1: string, o2: string, a2: Value, t2: string,
                        o3: string, a3: Value, t3: string)
    requires Render(a1) == t1 && Render(a2) == t2 && Render(a3) == t3
    ensures PipelineText([[Elem(o1, a1)], [Elem(o2, a2)], [Elem(o3, a3)]])
         == "[" + Join([Single(o1, t1), Single(o2, t2), Single(o3, t3)]) + "]"
  {
    StageOfOne(o1, a1, t1);
    StageOfOne(o2, a2, t2);
    StageOfOne(o3, a3, t3);
    StageTextsOfThree([Elem(o1, a1)], [Elem(o2, a2)], [Elem(o3, a3)]);
  }

  /** Three single-operator stages, written out. */
  lemma ThreeStagesGlue(o1: string, t1: string, o2: string, t2: string, o3: string, t3: string)
    ensures "[" + Join([Single(o1, t1), Single(o2, t2), Single(o3, t3)]) + "]"
         == "[{\"" + o1 + "\":" + t1 + "},{\"" + o2 + "\":" + t2 + "},{\"" + o3 + "\":" + t3 + "}]"
  {
    JoinThree(Single(o1, t1), Single(o2, t2), Single(o3, t3));
  }

  /** A one-stage pipeline whose operator's argument is a one-entry map. */
  lemma StageOfNested(op: string, k: string, v: Value, t: string)
    requires Render(v) == t
    ensures PipelineText([[Elem(op, Map([Elem(k, v)]))]]) == "[" + Single(op, Single(k, t)) + "]"
  {
    MapOfOne(k, v, t);
    PipelineOfOne(op, Map([Elem(k, v)]), Single(k, t));
  }

  /** The same text written out. */
  lemma NestedGlue(op: string, k: string, t: string)
    ensures "[" + Single(op, Single(k, t)) + "]" == "[{\"" + op + "\":{\"" + k + "\":" + t + "}}]"
  {
  }

  // Texts of the scalar parts.

  lemma SmallInts()
    ensures Render(Int(1)) == "1" && Render(Int(-1)) == "-1" && Render(Int(42)) == "42"
  {
    assert NatText(1) == "1";
    assert NatText(42) == NatText(4) + "2";
  }

  lemma ZipcodeInt()
    ensures Render(Int(10001)) == "10001"
  {
    assert NatText(100) == "100";
    assert NatText(1000) == NatText(100) + "0";
    assert NatText(10001) == NatText(1000) + "1";
  }

  /** `ObjectId("670ef82ee2cfc8452bea7023")`. */
  lemma OidRenderParts(id: ObjectIdBytes)
    requires Hex.Encode(id) == OidText
    ensures Render(ObjectId(id)) == "ObjectId(\"" + OidText + "\")"
  {
  }

  lemma OidRenderGlue()
    ensures "ObjectId(\"" + OidText + "\")" == "ObjectId(\"670ef82ee2cfc8452bea7023\")"
  {
  }

  lemma OidRender(id: ObjectIdBytes)
    requires Hex.Encode(id) == OidText
    ensures Render(ObjectId(id)) == "ObjectId(\"670ef82ee2cfc8452bea7023\")"
  {
    OidRenderParts(id);
    OidRenderGlue();
  }

  lemma TenDigits()
    ensures NatText(1234567890) == "1234567890"
  {
    assert NatText(12) == "12";
    assert NatText(123) == "123";
    assert NatText(1234) == "1234";
    assert NatText(12345) == "12345";
    assert NatText(123456) == "123456";
    assert NatText(1234567) == "1234567";
    assert NatText(12345678) == "12345678";
    assert NatText(123456789) == "123456789";
  }

  lemma TimestampRenderParts()
    ensures Render(Timestamp(1234567890, 1)) == "Timestamp(" + "1234567890" + "," + "1" + ")"
  {
    TenDigits();
    assert NatText(1) == "1";
  }

  lemma TimestampRenderGlue()
    ensures "Timestamp(" + "1234567890" + "," + "1" + ")" == "Timestamp(1234567890,1)"
  {
  }

  /** `Timestamp(1234567890,1)`. */
  lemma TimestampRender()
    ensures Render(Timestamp(1234567890, 1)) == "Timestamp(1234567890,1)"
  {
    TimestampRenderParts();
    TimestampRenderGlue();
  }

  /** Day 19640 after 1970-01-01 is 2023-10-10. */
  lemma Day19640()
    ensures CivilFromDays(19640) == Civil(2023, 10, 10)
  {
    DivIs(739108, 146097, 5);
    assert YearOfEra(8623) == 23 by {
      DivIs(8623, 1460, 5);
      DivIs(8623, 36524, 0);
      DivIs(8623, 146096, 0);
      DivIs(8618, 365, 23);
    }
    assert EraYearStart(23) == 8400 by {
      DivIs(23, 4, 5);
      DivIs(23, 100, 0);
    }
    DivIs(1117, 153, 7);
    assert MonthStart(7) == 214 by {
      DivIs(1073, 5, 214);
    }
  }

  lemma MidnightFields()
    ensures SecondsText(1696896000)
         == Layout(PaddedInt(2023, 4), PaddedInt(10, 2), PaddedInt(10, 2), PaddedInt(0, 2), PaddedInt(0, 2), PaddedInt(0, 2))
  {
    DivIs(1696896000, 86400, 19640);
    Day19640();
  }

  lemma MidnightPadding()
    ensures PaddedInt(2023, 4) == "2023" && PaddedInt(10, 2) == "10" && PaddedInt(0, 2) == "00"
  {
    assert NatText(2023) == "2023";
    assert NatText(10) == "10";
    assert NatText(0) == "0";
    assert ZeroPad("0", 2) == "00";
  }

  lemma MidnightGlue()
    ensures Layout("2023", "10", "10", "00", "00", "00") == "2023-10-10T00:00:00Z"
  {
  }

  lemma MidnightText()
    ensures SecondsText(1696896000) == "2023-10-10T00:00:00Z"
  {
    MidnightFields();
    MidnightPadding();
    MidnightGlue();
  }

  lemma MidnightSeconds()
    ensures UnixSeconds(1696896000000) == 1696896000
  {
    DivIs(1696896000000, 1000, 1696896000);
    assert GoQuo(1696896000000, 1000) == 1696896000;
  }

  lemma MidnightIso()
    ensures IsoText(1696896000000) == "2023-10-10T00:00:00Z"
  {
    MidnightSeconds();
    MidnightText();
  }

  lemma DateTimeOfIso(ms: Int64, iso: string)
    requires IsoText(ms as int) == iso
    ensures Render(DateTime(ms)) == "ISODate(\"" + iso + "\")"
  {
    var text := IsoText(ms as int);
    assert ScalarText(DateTime(ms)) == "ISODate(\"" + text + "\")";
    assert Render(DateTime(ms)) == ScalarText(DateTime(ms));
  }

  lemma DateTimeRenderParts()
    ensures Render(DateTime(1696896000000)) == "ISODate(\"" + "2023-10-10T00:00:00Z" + "\")"
  {
    MidnightIso();
    DateTimeOfIso(1696896000000, "2023-10-10T00:00:00Z");
  }

  lemma DateTimeRenderGlue()
    ensures "ISODate(\"" + "2023-10-10T00:00:00Z" + "\")" == "ISODate(\"2023-10-10T00:00:00Z\")"
  {
  }

  /** `ISODate("2023-10-10T00:00:00Z")`: the DateTime 1696896000000 ms after the epoch. */
  lemma DateTimeRender()
    ensures Render(DateTime(1696896000000)) == "ISODate(\"2023-10-10T00:00:00Z\")"
  {
    DateTimeRenderParts();
    DateTimeRenderGlue();
  }

  // The scenarios.

  lemma ArrayWithNilParts()
    ensures Render(Arr([Str("element1"), Int(42), Bool(true), Null]))
         == "[" + Join(["\"element1\"", "42", "true", "null"]) + "]"
  {
    SmallInts();
    ArrayOfFour(Str("element1"), "\"element1\"", Int(42), "42", Bool(true), "true", Null, "null");
  }

  lemma ArrayWithNilGlue()
    ensures "[" + Join(["\"element1\"", "42", "true", "null"]) + "]" == "[\"element1\",42,true,null]"
  {
    JoinFour("\"element1\"", "42", "true", "null");
  }

  /** The array `bson.A{"element1", 42, true, nil}`. */
  lemma ArrayWithNil()
    ensures Render(Arr([Str("element1"), Int(42), Bool(true), Null])) == "[\"element1\",42,true,null]"
  {
    ArrayWithNilParts();
    ArrayWithNilGlue();
  }

  lemma ProjectStageGlue(t: string)
    ensures "[{\"" + "$project" + "\":{\"" + "field" + "\":" + t + "}}]" == "[{\"$project\":{\"field\":" + t + "}}]"
  {
  }

  /** That array as the `field` of a `$project` stage; the array's text is embedded unchanged. */
  lemma ProjectStage()
    ensures PipelineText([[Elem("$project", Map([Elem("field", Arr([Str("element1"), Int(42), Bool(true), Null]))]))]])
         == "[{\"$project\":{\"field\":" + "[\"element1\",42,true,null]" + "}}]"
  {
    ArrayWithNil();
    StageOfNested("$project", "field", Arr([Str("element1"), Int(42), Bool(true), Null]), "[\"element1\",42,true,null]");
    NestedGlue("$project", "field", "[\"element1\",42,true,null]");
    ProjectStageGlue("[\"element1\",42,true,null]");
  }

  lemma DecimalStageParts()
    ensures PipelineText([[Elem("$match", Map([Elem("price", Decimal128("1234.5678"))]))]])
         == "[" + Single("$match", Single("price", "Decimal128(\"1234.5678\")")) + "]"
  {
    StageOfNested("$match", "price", Decimal128("1234.5678"), "Decimal128(\"1234.5678\")");
  }

  lemma DecimalStageGlue(t: string)
    ensures "[" + Single("$match", Single("price", t)) + "]" == "[{\"$match\":{\"price\":" + t + "}}]"
  {
    NestedGlue("$match", "price", t);
  }

  /** A Decimal128 whose canonical text is `1234.5678`, in a `$match` stage. */
  lemma DecimalStage()
    ensures PipelineText([[Elem("$match", Map([Elem("price", Decimal128("1234.5678"))]))]])
         == "[{\"$match\":{\"price\":" + "Decimal128(\"1234.5678\")" + "}}]"
  {
    DecimalStageParts();
    DecimalStageGlue("Decimal128(\"1234.5678\")");
  }

  lemma AddressParts()
    ensures Render(Map([Elem("city", Str("New York")), Elem("zipcode", Int(10001))]))
         == "{" + EntryText("city", "\"New York\"") + "," + EntryText("zipcode", "10001") + "}"
  {
    ZipcodeInt();
    MapOfTwo("city", Str("New York"), "\"New York\"", "zipcode", Int(10001), "10001");
  }

  lemma AddressGlue()
    ensures "{" + EntryText("city", "\"New York\"") + "," + EntryText("zipcode", "10001") + "}"
         == "{\"city\":\"New York\",\"zipcode\":10001}"
  {
  }

  /** The map `{"city": "New York", "zipcode": 10001}`, in that iteration order. */
  lemma Address()
    ensures Render(Map([Elem("city", Str("New York")), Elem("zipcode", Int(10001))]))
         == "{\"city\":\"New York\",\"zipcode\":10001}"
  {
    AddressParts();
    AddressGlue();
  }

  lemma NestedDocumentsGlue(t: string)
    ensures "[{\"" + "$match" + "\":{\"" + "address" + "\":" + t + "}}]" == "[{\"$match\":{\"address\":" + t + "}}]"
  {
  }

  /** That map nested in the `address` entry of a `$match` stage: the inner text is embedded unchanged. */
  lemma NestedDocuments()
    ensures PipelineText([[Elem("$match", Map([Elem("address", Map([Elem("city", Str("New York")), Elem("zipcode", Int(10001))]))]))]])
         == "[{\"$match\":{\"address\":" + "{\"city\":\"New York\",\"zipcode\":10001}" + "}}]"
  {
    Address();
    StageOfNested("$match", "address", Map([Elem("city", Str("New York")), Elem("zipcode", Int(10001))]),
                  "{\"city\":\"New York\",\"zipcode\":10001}");
    NestedGlue("$match", "address", "{\"city\":\"New York\",\"zipcode\":10001}");
    NestedDocumentsGlue("{\"city\":\"New York\",\"zipcode\":10001}");
  }

  lemma DatesGlue(d: string, s: string)
    ensures "{" + EntryText("createdAt", d) + "," + EntryText("updatedAt", s) + "}"
         == "{\"createdAt\":" + d + ",\"updatedAt\":" + s + "}"
  {
  }

  /** The map `{"createdAt": DateTime, "updatedAt": Timestamp}` of the date scenario, in that iteration order. */
  lemma Dates()
    ensures Render(Map([Elem("createdAt", DateTime(1696896000000)), Elem("updatedAt", Timestamp(1234567890, 1))]))
         == "{\"createdAt\":" + "ISODate(\"2023-10-10T00:00:00Z\")" + ",\"updatedAt\":" + "Timestamp(1234567890,1)" + "}"
  {
    DateTimeRender();
    TimestampRender();
    MapOfTwo("createdAt", DateTime(1696896000000), "ISODate(\"2023-10-10T00:00:00Z\")",
             "updatedAt", Timestamp(1234567890, 1), "Timestamp(1234567890,1)");
    DatesGlue("ISODate(\"2023-10-10T00:00:00Z\")", "Timestamp(1234567890,1)");
  }

  lemma MatchArgumentGlue(o: string)
    ensures "{" + EntryText("_id", o) + "," + EntryText("status", "\"active\"") + "}"
         == "{\"_id\":" + o + ",\"status\":\"active\"}"
  {
  }

  /** The `$match` argument `{"_id": objectID, "status": "active"}` of the pipeline scenario, in that order. */
  lemma MatchArgument(id: ObjectIdBytes)
    requires Hex.Encode(id) == OidText
    ensures Render(Map([Elem("_id", ObjectId(id)), Elem("status", Str("active"))]))
         == "{\"_id\":" + "ObjectId(\"670ef82ee2cfc8452bea7023\")" + ",\"status\":\"active\"}"
  {
    OidRender(id);
    MapOfTwo("_id", ObjectId(id), "ObjectId(\"670ef82ee2cfc8452bea7023\")", "status", Str("active"), "\"active\"");
    MatchArgumentGlue("ObjectId(\"670ef82ee2cfc8452bea7023\")");
  }

  lemma GroupArgumentParts()
    ensures Render(Map([Elem("_id", Str("$category")), Elem("total", Map([Elem("$sum", Int(1))]))]))
         == "{" + EntryText("_id", "\"$category\"") + "," + EntryText("total", Single("$sum", "1")) + "}"
  {
    SmallInts();
    MapOfOne("$sum", Int(1), "1");
    MapOfTwo("_id", Str("$category"), "\"$category\"", "total", Map([Elem("$sum", Int(1))]), Single("$sum", "1"));
  }

  lemma GroupArgumentGlue(t: string)
    ensures "{" + EntryText("_id", "\"$category\"") + "," + EntryText("total", t) + "}"
         == "{\"_id\":\"$category\",\"total\":" + t + "}"
  {
  }

  lemma SumOfOne()
    ensures Single("$sum", "1") == "{\"$sum\":1}"
  {
  }

  /** The `$group` argument `{"_id": "$category", "total": {"$sum": 1}}`, in that order. */
  lemma GroupArgument()
    ensures Render(Map([Elem("_id", Str("$category")), Elem("total", Map([Elem("$sum", Int(1))]))]))
         == "{\"_id\":\"$category\",\"total\":" + "{\"$sum\":1}" + "}"
  {
    GroupArgumentParts();
    GroupArgumentGlue(Single("$sum", "1"));
    SumOfOne();
  }

  /** The `$sort` argument `{"total": -1}`. */
  lemma SortArgument()
    ensures Render(Map([Elem("total", Int(-1))])) == "{\"total\":-1}"
  {
    SmallInts();
    MapOfOne("total", Int(-1), "-1");
  }

  /**
   The `$match` map of the pipeline scenario has two iteration orders; Go
   may take either, and they render differently, so the expected text holds
   for one of them only.
   */
  lemma MatchStageOrder(id: ObjectIdBytes)
    ensures var es1 := [Elem("_id", ObjectId(id)), Elem("status", Str("active"))];
      var es2 := [Elem("status", Str("active")), Elem("_id", ObjectId(id))];
      && KeysDistinct(es1) && KeysDistinct(es2) && MapOf(es1) == MapOf(es2)
      && Render(Map(es1)) != Render(Map(es2))
  {
    var es1 := [Elem("_id", ObjectId(id)), Elem("status", Str("active"))];
    var es2 := [Elem("status", Str("active")), Elem("_id", ObjectId(id))];
    SwapTwo(es1[0], es1[1]);
    var oid, active := Render(ObjectId(id)), Render(Str("active"));
    MapOfTwo("_id", ObjectId(id), oid, "status", Str("active"), active);
    MapOfTwo("status", Str("active"), active, "_id", ObjectId(id), oid);
    assert Render(Map(es1))[2] == '_' && Render(Map(es2))[2] == 's';
  }

  lemma MatchGroupSortParts(id: ObjectIdBytes)
    requires Hex.Encode(id) == OidText
    ensures PipelineText([[Elem("$match", Map([Elem("_id", ObjectId(id)), Elem("status", Str("active"))]))],
                          [Elem("$group", Map([Elem("_id", Str("$category")), Elem("total", Map([Elem("$sum", Int(1))]))]))],
                          [Elem("$sort", Map([Elem("total", Int(-1))]))]])
         == "[" + Join([Single("$match", "{\"_id\":" + "ObjectId(\"670ef82ee2cfc8452bea7023\")" + ",\"status\":\"active\"}"),
                        Single("$group", "{\"_id\":\"$category\",\"total\":" + "{\"$sum\":1}" + "}"),
                        Single("$sort", "{\"total\":-1}")]) + "]"
  {
    MatchArgument(id);
    GroupArgument();
    SortArgument();
    PipelineOfThree(
      "$match", Map([Elem("_id", ObjectId(id)), Elem("status", Str("active"))]),
      "{\"_id\":" + "ObjectId(\"670ef82ee2cfc8452bea7023\")" + ",\"status\":\"active\"}",
      "$group", Map([Elem("_id", Str("$category")), Elem("total", Map([Elem("$sum", Int(1))]))]),
      "{\"_id\":\"$category\",\"total\":" + "{\"$sum\":1}" + "}",
      "$sort", Map([Elem("total", Int(-1))]), "{\"total\":-1}");
  }

  lemma MatchGroupSortGlue(m: string, g: string, s: string)
    ensures "[{\"" + "$match" + "\":" + m + "},{\"" + "$group" + "\":" + g + "},{\"" + "$sort" + "\":" + s + "}]"
         == "[{\"$match\":" + m + "},{\"$group\":" + g + "},{\"$sort\":" + s + "}]"
  {
  }

  /**
   The three-stage pipeline of the first case, with each `bson.M` iterated
   in the order of the expected text: the `$match`, `$group` and `$sort`
   arguments are embedded as `MatchArgument`, `GroupArgument` and
   `SortArgument` give them, in stage order.
   */
  lemma MatchGroupSort(id: ObjectIdBytes)
    requires Hex.Encode(id) == OidText
    ensures PipelineText([[Elem("$match", Map([Elem("_id", ObjectId(id)), Elem("status", Str("active"))]))],
                          [Elem("$group", Map([Elem("_id", Str("$category")), Elem("total", Map([Elem("$sum", Int(1))]))]))],
                          [Elem("$sort", Map([Elem("total", Int(-1))]))]])
         == "[{\"$match\":" + ("{\"_id\":" + "ObjectId(\"670ef82ee2cfc8452bea7023\")" + ",\"status\":\"active\"}")
          + "},{\"$group\":" + ("{\"_id\":\"$category\",\"total\":" + "{\"$sum\":1}" + "}")
          + "},{\"$sort\":" + "{\"total\":-1}" + "}]"
  {
    var m := "{\"_id\":" + "ObjectId(\"670ef82ee2cfc8452bea7023\")" + ",\"status\":\"active\"}";
    var g := "{\"_id\":\"$category\",\"total\":" + "{\"$sum\":1}" + "}";
    var s := "{\"total\":-1}";
    MatchGroupSortParts(id);
    ThreeStagesGlue("$match", m, "$group", g, "$sort", s);
    MatchGroupSortGlue(m, g, s);
  }

  lemma MatchStageGlue(t: string)
    ensures "[" + Single("$match", t) + "]" == "[{\"$match\":" + t + "}]"
  {
  }

  /** The one-stage pipeline of the date case: the `createdAt`/`updatedAt` map embedded as `Dates` gives it. */
  lemma DateTimeAndTimestamp()
    ensures PipelineText([[Elem("$match", Map([Elem("createdAt", DateTime(1696896000000)), Elem("updatedAt", Timestamp(1234567890, 1))]))]])
         == "[{\"$match\":" + ("{\"createdAt\":" + "ISODate(\"2023-10-10T00:00:00Z\")" + ",\"updatedAt\":" + "Timestamp(1234567890,1)" + "}") + "}]"
  {
    var d := "{\"createdAt\":" + "ISODate(\"2023-10-10T00:00:00Z\")" + ",\"updatedAt\":" + "Timestamp(1234567890,1)" + "}";
    Dates();
    PipelineOfOne("$match", Map([Elem("createdAt", DateTime(1696896000000)), Elem("updatedAt", Timestamp(1234567890, 1))]), d);
    MatchStageGlue(d);
  }
}
