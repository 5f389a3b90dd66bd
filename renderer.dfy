/**
 The renderer as the Go code runs it: a type switch whose container
 branches append to a byte buffer in a loop, writing a comma before every
 part but the first, and the pipeline entry point built the same way.
 Each is proved to produce the text that module `Compass` specifies.
 */
module CompassRenderer {
  import opened Bson
  import opened Compass

  /** A growable text buffer (`bytes.Buffer`): written to at the end, read out whole. */
  class Buffer {
    var data: string

    constructor ()
      ensures data == ""
    {
      data := "";
    }

    method WriteString(s: string)
      modifies this
      ensures data == old(data) + s
    {
      data := data + s;
    }
  }

  /** `bsonToCompassString`: the text of any value. */
  method RenderValue(v: Value) returns (s: string)
    ensures s == Render(v)
    decreases v, 1
  {
    match v
    case Arr(items) =>
      s := RenderArray(items);
    case Doc(es) =>
      s := RenderDocument(es);
    case Map(es) =>
      s := RenderMap(es);
    case _ =>
      s := ScalarText(v);
  }

  /** The `bson.A` branch: items in order, a comma before each but the first. */
  method RenderArray(items: seq<Value>) returns (s: string)
    ensures s == Render(Arr(items))
    decreases items, 0
  {
    ghost var parts := ItemTexts(items);
    var buffer := new Buffer();
    buffer.WriteString("[");
    for i := 0 to |items|
      invariant buffer.data == "[" + Join(parts[..i])
    {
      JoinStep("[", parts, i, buffer.data);
      if i > 0 {
        buffer.WriteString(",");
      }
      var item := RenderValue(items[i]);
      assert item == parts[i];
      buffer.WriteString(item);
    }
    buffer.WriteString("]");
    assert parts[..|items|] == parts;
    s := buffer.data;
  }

  /** The `bson.D` branch: `"key":value` for each element in stored order, a comma before each but the first. */
  method RenderDocument(es: seq<Elem>) returns (s: string)
    ensures s == Render(Doc(es))
    decreases es, 0
  {
    ghost var parts := EntryTexts(es);
    var buffer := new Buffer();
    buffer.WriteString("{");
    for i := 0 to |es|
      invariant buffer.data == "{" + Join(parts[..i])
    {
      JoinStep("{", parts, i, buffer.data);
      if i > 0 {
        buffer.WriteString(",");
      }
      var value := RenderValue(es[i].value);
      var entry := EntryText(es[i].key, value);
      assert entry == parts[i];
      buffer.WriteString(entry);
    }
    buffer.WriteString("}");
    assert parts[..|es|] == parts;
    s := buffer.data;
  }

  /**
   The `bson.M` branch: `"key":value` for each entry in the order this
   iteration of the Go map yields them, with a `first` flag guarding the comma.
   */
  method RenderMap(es: seq<Elem>) returns (s: string)
    ensures s == Render(Map(es))
    decreases es, 0
  {
    ghost var parts := EntryTexts(es);
    var buffer := new Buffer();
    buffer.WriteString("{");
    var first := true;
    for i := 0 to |es|
      invariant first <==> i == 0
      invariant buffer.data == "{" + Join(parts[..i])
    {
      JoinStep("{", parts, i, buffer.data);
      if !first {
        buffer.WriteString(",");
      }
      first := false;
      var value := RenderValue(es[i].value);
      var entry := EntryText(es[i].key, value);
      assert entry == parts[i];
      buffer.WriteString(entry);
    }
    buffer.WriteString("}");
    assert parts[..|es|] == parts;
    s := buffer.data;
  }

  /** `PipelineToCompassString`: the stages rendered in order, comma-separated, in brackets. */
  method RenderPipeline(pipeline: seq<Stage>) returns (s: string)
    ensures s == PipelineText(pipeline)
  {
    ghost var parts := StageTexts(pipeline);
    var buffer := new Buffer();
    buffer.WriteString("[");
    for i := 0 to |pipeline|
      invariant buffer.data == "[" + Join(parts[..i])
    {
      JoinStep("[", parts, i, buffer.data);
      if i > 0 {
        buffer.WriteString(",");
      }
      var stage := RenderValue(Doc(pipeline[i]));
      assert stage == parts[i];
      buffer.WriteString(stage);
    }
    buffer.WriteString("]");
    assert parts[..|pipeline|] == parts;
    s := buffer.data;
  }
}
