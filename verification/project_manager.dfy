/**
 * Project files: the JSON record a box is saved as and read back from, the
 * structural check a loaded document must pass, and the reconstruction of
 * containers on load, where every saved box goes through `add_box` again and
 * boxes that no longer fit are dropped without notice.
 */
module ProjectManager {
  import opened Wrappers
  import opened Boxes
  import C = Containers
  import L = LegacyContainers

  /** A JSON document as `json.load` returns it; an object is a dictionary. */
  datatype Json =
    | Null
    | Bool(flag: bool)
    | Num(n: real)
    | Str(text: string)
    | Arr(items: seq<Json>)
    | Obj(fields: map<string, Json>)

  const ProjectVersion: string := "1.0"

  /** The project name used when none, or an empty one, is given. */
  const UnnamedProject: string := "未命名项目"

  const ProjectDescription: string := "集装箱装载管理系统项目文件"

  /** The container name used when a container record has none. */
  const DefaultContainerName: string := "集装箱"

  /** The keys every box record is written with. */
  const BoxKeys: set<string> := {"id", "length", "width", "weight", "height", "x", "y", "rotated"}

  // ---------------------------------------------------------------------------
  // Box records

  /** The record `save_project` writes for a box; an absent height is `null`. */
  function BoxRecord(b: Box): (r: Json)
    ensures r.Obj? && r.fields.Keys == BoxKeys
  {
    Obj(map[
      "id" := Str(b.id),
      "length" := Num(b.length),
      "width" := Num(b.width),
      "weight" := Num(b.weight),
      "height" := (if b.height.Some? then Num(b.height.value) else Null),
      "x" := Num(b.x),
      "y" := Num(b.y),
      "rotated" := Bool(b.rotated)])
  }

  /** A numeric field, `default` when the key is missing; `None` when the
      value is not a number. */
  function NumberField(o: map<string, Json>, key: string, default: real): Option<real>
  {
    if key !in o then Some(default)
    else if o[key].Num? then Some(o[key].n)
    else None
  }

  function TextField(o: map<string, Json>, key: string, default: string): Option<string>
  {
    if key !in o then Some(default)
    else if o[key].Str? then Some(o[key].text)
    else None
  }

  function FlagField(o: map<string, Json>, key: string, default: bool): Option<bool>
  {
    if key !in o then Some(default)
    else if o[key].Bool? then Some(o[key].flag)
    else None
  }

  /** The height: missing and `null` both mean no height. */
  function HeightField(o: map<string, Json>): Option<Option<real>>
  {
    if HeightAbsent(o) then Some(None)
    else if o["height"].Num? then Some(Some(o["height"].n))
    else None
  }

  predicate HeightAbsent(o: map<string, Json>)
  {
    "height" !in o || o["height"].Null?
  }

  /** The field of a box record, when present, holds `v`; when absent, `v`
      is the default `d`. */
  predicate Holds(o: map<string, Json>, key: string, v: Json, d: Json)
  {
    if key in o then o[key] == v else v == d
  }

  /** Python's truth value of a JSON value is false: `null`, `false`, zero,
      and the empty string, list and object. */
  predicate Falsy(j: Json)
  {
    match j
    case Null => true
    case Bool(flag) => !flag
    case Num(n) => n == 0.0
    case Str(text) => |text| == 0
    case Arr(items) => |items| == 0
    case Obj(fields) => |fields| == 0
  }

  /** A container dimension, `record.get(key, default)` passed through the
      constructor's `value or default`: `default` when the key is missing or
      its value is falsy; `None` when a truthy value is not a number. */
  function DimensionField(o: map<string, Json>, key: string, default: real): Option<real>
  {
    if key !in o || Falsy(o[key]) then Some(default)
    else if o[key].Num? then Some(o[key].n)
    else None
  }

  /** A container read from record `o` has dimension `v` under `key`: the
      default when the value is missing or falsy, the number itself
      otherwise. */
  predicate DimensionRead(o: map<string, Json>, key: string, default: real, v: real)
  {
    if key !in o || Falsy(o[key]) then v == default else o[key] == Num(v)
  }

  /** `create_box_from_data`: a box from a record, each missing field taking
      its default. A record that is not an object yields no box; so does one
      whose fields have the wrong JSON type. */
  function BoxFromRecord(j: Json): (r: Option<Box>)
    ensures !j.Obj? ==> r.None?
    ensures r.Some? ==>
      var o := j.fields;
      var b := r.value;
      && Holds(o, "id", Str(b.id), Str(""))
      && Holds(o, "length", Num(b.length), Num(0.0))
      && Holds(o, "width", Num(b.width), Num(0.0))
      && Holds(o, "weight", Num(b.weight), Num(0.0))
      && Holds(o, "x", Num(b.x), Num(0.0))
      && Holds(o, "y", Num(b.y), Num(0.0))
      && Holds(o, "rotated", Bool(b.rotated), Bool(false))
      && (b.height.Some? <==> "height" in o && o["height"].Num?)
      && (b.height.Some? ==> o["height"] == Num(b.height.value))
    ensures j.Obj? && (forall key :: key in j.fields ==> key !in BoxKeys) ==>
      r == Some(Box("", 0.0, 0.0, 0.0, None, 0.0, 0.0, false))
  {
    if !j.Obj? then None
    else
      var o := j.fields;
      var id := TextField(o, "id", "");
      var length := NumberField(o, "length", 0.0);
      var width := NumberField(o, "width", 0.0);
      var weight := NumberField(o, "weight", 0.0);
      var height := HeightField(o);
      var x := NumberField(o, "x", 0.0);
      var y := NumberField(o, "y", 0.0);
      var rotated := FlagField(o, "rotated", false);
      if id.Some? && length.Some? && width.Some? && weight.Some? && height.Some?
         && x.Some? && y.Some? && rotated.Some?
      then
        var b := NewBox(id.value, length.value, width.value, weight.value, height.value);
        Some(b.(x := x.value, y := y.value, rotated := rotated.value))
      else None
  }

  /** Reading a saved record gives back a field-equal box. */
  lemma RecordRoundTrip(b: Box)
    ensures BoxFromRecord(BoxRecord(b)) == Some(b)
  {
    var o := BoxRecord(b).fields;
    assert TextField(o, "id", "") == Some(b.id);
    assert NumberField(o, "length", 0.0) == Some(b.length);
    assert NumberField(o, "width", 0.0) == Some(b.width);
    assert NumberField(o, "weight", 0.0) == Some(b.weight);
    assert HeightField(o) == Some(b.height);
    assert NumberField(o, "x", 0.0) == Some(b.x);
    assert NumberField(o, "y", 0.0) == Some(b.y);
    assert FlagField(o, "rotated", false) == Some(b.rotated);
  }

  /** Distinct boxes are saved as distinct records. */
  lemma RecordIsInjective(a: Box, b: Box)
    requires BoxRecord(a) == BoxRecord(b)
    ensures a == b
  {
    RecordRoundTrip(a);
    RecordRoundTrip(b);
  }

  /** The boxes of the records that yield one, in order. */
  function RecordBoxes(records: seq<Json>): (r: seq<Box>)
    ensures |r| <= |records|
  {
    if |records| == 0 then []
    else
      match BoxFromRecord(records[0])
      case Some(b) => [b] + RecordBoxes(records[1..])
      case None => RecordBoxes(records[1..])
  }

  /** Every box read is the box of some record. */
  lemma {:induction false} RecordBoxesComeFromRecords(records: seq<Json>)
    ensures forall b :: b in RecordBoxes(records) ==>
      exists k :: 0 <= k < |records| && BoxFromRecord(records[k]) == Some(b)
    decreases |records|
  {
    if |records| > 0 {
      var rest := RecordBoxes(records[1..]);
      RecordBoxesComeFromRecords(records[1..]);
      assert RecordBoxes(records) == Yield(BoxFromRecord(records[0])) + rest;
      forall b | b in RecordBoxes(records)
        ensures exists k :: 0 <= k < |records| && BoxFromRecord(records[k]) == Some(b)
      {
        if b in rest {
          var k :| 0 <= k < |records[1..]| && BoxFromRecord(records[1..][k]) == Some(b);
          assert records[1..][k] == records[k + 1];
        } else {
          assert BoxFromRecord(records[0]) == Some(b);
        }
      }
    }
  }

  /** When every record yields a box there is one box per record, in the
      records' order. */
  lemma {:induction false} AllRecordsReadable(records: seq<Json>)
    requires forall k :: 0 <= k < |records| ==> BoxFromRecord(records[k]).Some?
    ensures |RecordBoxes(records)| == |records|
    ensures forall k :: 0 <= k < |records| ==> BoxFromRecord(records[k]) == Some(RecordBoxes(records)[k])
    decreases |records|
  {
    if |records| > 0 {
      var rest := RecordBoxes(records[1..]);
      assert forall k :: 0 <= k < |records| - 1 ==> records[1..][k] == records[k + 1];
      AllRecordsReadable(records[1..]);
      assert RecordBoxes(records) == [BoxFromRecord(records[0]).value] + rest;
    }
  }

  /** When no record yields a box there are no boxes. */
  lemma {:induction false} NoRecordReadable(records: seq<Json>)
    requires forall k :: 0 <= k < |records| ==> BoxFromRecord(records[k]).None?
    ensures RecordBoxes(records) == []
    decreases |records|
  {
    if |records| > 0 {
      assert forall k :: 0 <= k < |records| - 1 ==> records[1..][k] == records[k + 1];
      NoRecordReadable(records[1..]);
    }
  }

  /** The boxes of two runs of records are those of the first run followed by
      those of the second: the order of the records is kept. */
  lemma {:induction false} RecordBoxesAppend(a: seq<Json>, b: seq<Json>)
    ensures RecordBoxes(a + b) == RecordBoxes(a) + RecordBoxes(b)
    decreases |a|
  {
    if |a| == 0 {
      assert a + b == b;
    } else {
      assert (a + b)[0] == a[0];
      assert (a + b)[1..] == a[1..] + b;
      RecordBoxesAppend(a[1..], b);
    }
  }

  function BoxRecords(bs: seq<Box>): (r: seq<Json>)
    ensures |r| == |bs|
    ensures forall k :: 0 <= k < |bs| ==> r[k] == BoxRecord(bs[k])
  {
    seq(|bs|, k requires 0 <= k < |bs| => BoxRecord(bs[k]))
  }

  /** Saved boxes are read back as they were, in order. */
  lemma {:induction false} RecordsRoundTrip(bs: seq<Box>)
    ensures RecordBoxes(BoxRecords(bs)) == bs
    decreases |bs|
  {
    if |bs| > 0 {
      RecordRoundTrip(bs[0]);
      assert BoxRecords(bs)[1..] == BoxRecords(bs[1..]);
      RecordsRoundTrip(bs[1..]);
    }
  }

  // ---------------------------------------------------------------------------
  // Subsequences

  /** `a` is `b` with some elements left out, the rest in order. */
  predicate IsSubsequence<T(==)>(a: seq<T>, b: seq<T>)
    decreases |b|
  {
    |a| == 0 || (|b| > 0 && ((a[0] == b[0] && IsSubsequence(a[1..], b[1..])) || IsSubsequence(a, b[1..])))
  }

  lemma {:induction false} SubsequenceOfLonger<T>(a: seq<T>, p: seq<T>, b: seq<T>)
    requires IsSubsequence(a, b)
    ensures IsSubsequence(a, p + b)
    decreases |p|
  {
    if |p| > 0 {
      assert (p + b)[1..] == p[1..] + b;
      SubsequenceOfLonger(a, p[1..], b);
      if |a| > 0 {
        assert IsSubsequence(a, (p + b)[1..]);
      }
    } else {
      assert p + b == b;
    }
  }

  lemma {:induction false} SubsequenceIsShorter<T>(a: seq<T>, b: seq<T>)
    requires IsSubsequence(a, b)
    ensures |a| <= |b|
    ensures forall x :: x in a ==> x in b
    decreases |b|
  {
    if |a| > 0 {
      if a[0] == b[0] && IsSubsequence(a[1..], b[1..]) {
        SubsequenceIsShorter(a[1..], b[1..]);
        assert forall x :: x in a ==> x == a[0] || x in a[1..];
        assert forall x :: x in b[1..] ==> x in b;
      } else {
        SubsequenceIsShorter(a, b[1..]);
        assert forall x :: x in b[1..] ==> x in b;
      }
    }
  }

  lemma {:induction false} SubsequenceOfItself<T>(a: seq<T>)
    ensures IsSubsequence(a, a)
    decreases |a|
  {
    if |a| > 0 {
      SubsequenceOfItself(a[1..]);
    }
  }

  // ---------------------------------------------------------------------------
  // Containers

  /** The box of a record that yields one, as a list of at most one box. */
  function Yield(o: Option<Box>): seq<Box>
  {
    if o.Some? then [o.value] else []
  }

  /** The boxes of `records`, in order, each through `add_box`: a box that
      cannot be placed where it stands is dropped. */
  function AddRecords(c: C.Container, records: seq<Json>): (r: C.Container)
    ensures r.name == c.name && r.length == c.length && r.width == c.width
    ensures C.Valid(c) ==> C.Valid(r)
    ensures |c.boxes| <= |r.boxes| && r.boxes[..|c.boxes|] == c.boxes
    ensures IsSubsequence(r.boxes[|c.boxes|..], RecordBoxes(records))
    ensures OnlyBlockedDropped(r, RecordBoxes(records))
    decreases |records|
  {
    if |records| == 0 then
      assert c.boxes[|c.boxes|..] == [];
      c
    else
      var o := BoxFromRecord(records[0]);
      var next := if o.Some? then L.AddBox(c, o.value).1 else c;
      var r := AddRecords(next, records[1..]);
      assert RecordBoxes(records) == Yield(o) + RecordBoxes(records[1..]);
      AddRecordsStep(c, o, next, r, RecordBoxes(records[1..]));
      DroppedStep(c, o, next, r, RecordBoxes(records[1..]));
      r
  }

  /** Every box of `bs` that `c` does not hold is one `c` refuses as it
      stands: nothing was dropped that would still fit. */
  predicate OnlyBlockedDropped(c: C.Container, bs: seq<Box>)
  {
    forall b :: b in bs && b !in c.boxes ==> !L.CanPlace(c, b)
  }

  /** A box refused by a container is refused once more boxes are added. */
  lemma BlockedStaysBlocked(c: C.Container, r: C.Container, b: Box)
    requires r.length == c.length && r.width == c.width
    requires |c.boxes| <= |r.boxes| && r.boxes[..|c.boxes|] == c.boxes
    requires !L.CanPlace(c, b)
    ensures !L.CanPlace(r, b)
  {
    if C.InBounds(c, b) {
      var k :| 0 <= k < |c.boxes| && Overlaps(b, c.boxes[k]);
      assert r.boxes[k] == r.boxes[..|c.boxes|][k];
    }
  }

  /** One step of `AddRecords`: a dropped box stays refused. */
  lemma DroppedStep(c: C.Container, o: Option<Box>, next: C.Container, r: C.Container, rest: seq<Box>)
    requires next == if o.Some? then L.AddBox(c, o.value).1 else c
    requires r.length == c.length && r.width == c.width
    requires |next.boxes| <= |r.boxes| && r.boxes[..|next.boxes|] == next.boxes
    requires OnlyBlockedDropped(r, rest)
    ensures OnlyBlockedDropped(r, Yield(o) + rest)
  {
    if o.Some? {
      var b := o.value;
      if L.AddBox(c, b).0 {
        assert r.boxes[|c.boxes|] == r.boxes[..|next.boxes|][|c.boxes|];
      } else {
        BlockedStaysBlocked(c, r, b);
      }
    } else {
      assert Yield(o) + rest == rest;
    }
  }

  /** One step of `AddRecords`: the surviving boxes stay a subsequence. */
  lemma AddRecordsStep(c: C.Container, o: Option<Box>, next: C.Container, r: C.Container, rest: seq<Box>)
    requires next == if o.Some? then L.AddBox(c, o.value).1 else c
    requires |next.boxes| <= |r.boxes| && r.boxes[..|next.boxes|] == next.boxes
    requires IsSubsequence(r.boxes[|next.boxes|..], rest)
    ensures |c.boxes| <= |r.boxes| && r.boxes[..|c.boxes|] == c.boxes
    ensures IsSubsequence(r.boxes[|c.boxes|..], Yield(o) + rest)
  {
    if o.Some? {
      if L.AddBox(c, o.value).0 {
        KeptStep(c.boxes, o.value, r.boxes, rest);
      } else {
        SubsequenceOfLonger(r.boxes[|c.boxes|..], [o.value], rest);
      }
    } else {
      assert Yield(o) + rest == rest;
    }
  }

  lemma KeptStep(before: seq<Box>, b: Box, after: seq<Box>, rest: seq<Box>)
    requires |before| + 1 <= |after| && after[..|before| + 1] == before + [b]
    requires IsSubsequence(after[|before| + 1..], rest)
    ensures |before| <= |after| && after[..|before|] == before
    ensures IsSubsequence(after[|before|..], [b] + rest)
  {
    assert after[..|before|] == after[..|before| + 1][..|before|];
    var tail := after[|before|..];
    assert tail[0] == b;
    assert tail[1..] == after[|before| + 1..];
    assert ([b] + rest)[1..] == rest;
  }

  /** What a container read from record `j` is: the record's name (or
      `集装箱` when it has none) and its dimensions (the defaults for missing
      or falsy ones); valid; holding, in order, a selection of the boxes its
      records yield, leaving out only boxes it refuses. */
  ghost predicate LoadedFrom(j: Json, c: C.Container)
  {
    && j.Obj? && "boxes" in j.fields && j.fields["boxes"].Arr?
    && Holds(j.fields, "name", Str(c.name), Str(DefaultContainerName))
    && DimensionRead(j.fields, "length", L.DefaultLength, c.length)
    && DimensionRead(j.fields, "width", L.DefaultWidth, c.width)
    && C.Valid(c)
    && IsSubsequence(c.boxes, RecordBoxes(j.fields["boxes"].items))
    && OnlyBlockedDropped(c, RecordBoxes(j.fields["boxes"].items))
  }

  /** A container record `Container(...)` accepts: an object whose name is
      text (or missing), whose dimensions are numbers (or missing or falsy),
      and whose `boxes` is a list. */
  predicate ReadableContainer(j: Json)
  {
    && j.Obj?
    && (("name" in j.fields) ==> j.fields["name"].Str?)
    && (("length" in j.fields && !Falsy(j.fields["length"])) ==> j.fields["length"].Num?)
    && (("width" in j.fields && !Falsy(j.fields["width"])) ==> j.fields["width"].Num?)
    && "boxes" in j.fields && j.fields["boxes"].Arr?
  }

  /** `Container(name, length, width)` from a container record, its boxes
      added in order; `None` when the name, a dimension or the box list has
      the wrong JSON type. */
  function ContainerFromRecord(j: Json): (r: Option<C.Container>)
    ensures r.Some? ==> C.Valid(r.value)
    ensures r.Some? ==>
      && j.Obj? && "boxes" in j.fields && j.fields["boxes"].Arr?
      && IsSubsequence(r.value.boxes, RecordBoxes(j.fields["boxes"].items))
  {
    if !j.Obj? then None
    else
      var o := j.fields;
      var name := TextField(o, "name", DefaultContainerName);
      var length := DimensionField(o, "length", L.DefaultLength);
      var width := DimensionField(o, "width", L.DefaultWidth);
      if name.Some? && length.Some? && width.Some? && "boxes" in o && o["boxes"].Arr? then
        var empty := L.NewContainer(name.value, length, width);
        var c := AddRecords(empty, o["boxes"].items);
        assert c.boxes[|empty.boxes|..] == c.boxes;
        Some(c)
      else None
  }

  /** A record yields a container exactly when it is readable, and the
      container is then the one `LoadedFrom` describes. */
  lemma ContainerFromRecordReads(j: Json)
    ensures ContainerFromRecord(j).Some? <==> ReadableContainer(j)
    ensures ContainerFromRecord(j).Some? ==> LoadedFrom(j, ContainerFromRecord(j).value)
  {
    if ReadableContainer(j) {
      var o := j.fields;
      var empty := L.NewContainer(TextField(o, "name", DefaultContainerName).value,
        DimensionField(o, "length", L.DefaultLength), DimensionField(o, "width", L.DefaultWidth));
      var c := AddRecords(empty, o["boxes"].items);
      assert c.boxes[|empty.boxes|..] == c.boxes;
      assert ContainerFromRecord(j) == Some(c);
    }
  }

  function LoadContainers(records: seq<Json>): (r: Option<seq<C.Container>>)
    ensures r.Some? ==> |r.value| == |records|
    ensures r.Some? ==> forall k :: 0 <= k < |records| ==> ContainerFromRecord(records[k]) == Some(r.value[k])
    ensures r.None? ==> exists k :: 0 <= k < |records| && ContainerFromRecord(records[k]).None?
  {
    if |records| == 0 then Some([])
    else
      var head := ContainerFromRecord(records[0]);
      var tail := LoadContainers(records[1..]);
      if head.None? then None
      else if tail.None? then
        var k :| 0 <= k < |records[1..]| && ContainerFromRecord(records[1..][k]).None?;
        assert records[k + 1] == records[1..][k];
        None
      else
        assert forall k :: 1 <= k < |records| ==> records[k] == records[1..][k - 1];
        Some([head.value] + tail.value)
  }

  // ---------------------------------------------------------------------------
  // The project document

  /** A container record is an object with a name and a list of boxes. */
  predicate ValidContainerRecord(j: Json)
  {
    j.Obj? && "name" in j.fields && "boxes" in j.fields && j.fields["boxes"].Arr?
  }

  /** `validate_project_data`: the three top-level keys, an object of project
      information, a list of container records and a list of pending boxes. */
  predicate ValidateProject(doc: Json)
  {
    && doc.Obj?
    && "project_info" in doc.fields && "containers" in doc.fields && "pending_boxes" in doc.fields
    && doc.fields["project_info"].Obj?
    && doc.fields["containers"].Arr?
    && (forall k :: 0 <= k < |doc.fields["containers"].items| ==>
          ValidContainerRecord(doc.fields["containers"].items[k]))
    && doc.fields["pending_boxes"].Arr?
  }

  /** The outcome of `load_project`: a flag, the containers, the pending boxes
      and the project information. */
  datatype Loaded = Loaded(ok: bool, containers: seq<C.Container>, pending: seq<Box>, info: map<string, Json>)

  const Failed: Loaded := Loaded(false, [], [], map[])

  /** `load_project` on a parsed document. */
  function LoadProject(doc: Json): (r: Loaded)
    ensures !ValidateProject(doc) ==> r == Failed
    ensures r.ok ==> ValidateProject(doc)
    ensures !r.ok ==> r == Failed
    ensures r.ok ==>
      var records := doc.fields["containers"].items;
      && |r.containers| == |records|
      && (forall k :: 0 <= k < |records| ==>
            && C.Valid(r.containers[k])
            && IsSubsequence(r.containers[k].boxes, RecordBoxes(records[k].fields["boxes"].items)))
      && r.pending == RecordBoxes(doc.fields["pending_boxes"].items)
      && r.info == doc.fields["project_info"].fields
  {
    if !ValidateProject(doc) then Failed
    else
      match LoadContainers(doc.fields["containers"].items)
      case None => Failed
      case Some(cs) =>
        Loaded(true, cs, RecordBoxes(doc.fields["pending_boxes"].items), doc.fields["project_info"].fields)
  }

  /** The project information written on save; `created` is the time stamp
      the clock supplies. */
  function ProjectInfo(name: Option<string>, created: string): (r: map<string, Json>)
    ensures r.Keys == {"name", "version", "created_time", "description"}
    ensures r["name"] == Str(if name.None? || name.value == "" then UnnamedProject else name.value)
    ensures r["version"] == Str(ProjectVersion)
  {
    map[
      "name" := Str(if name.Some? && name.value != "" then name.value else UnnamedProject),
      "version" := Str(ProjectVersion),
      "created_time" := Str(created),
      "description" := Str(ProjectDescription)]
  }

  function ContainerRecord(c: C.Container): (r: Json)
    ensures ValidContainerRecord(r)
    ensures r.fields.Keys == {"name", "length", "width", "boxes"}
  {
    Obj(map[
      "name" := Str(c.name),
      "length" := Num(c.length),
      "width" := Num(c.width),
      "boxes" := Arr(BoxRecords(c.boxes))])
  }

  /** The document `save_project` writes. */
  function SaveProject(cs: seq<C.Container>, pending: seq<Box>, name: Option<string>, created: string): (r: Json)
    ensures ValidateProject(r)
  {
    var records := seq(|cs|, k requires 0 <= k < |cs| => ContainerRecord(cs[k]));
    Obj(map[
      "project_info" := Obj(ProjectInfo(name, created)),
      "containers" := Arr(records),
      "pending_boxes" := Arr(BoxRecords(pending))])
  }

  /** Each container a successful load gives is read from its record as
      `LoadedFrom` describes: name, dimensions, validity, the kept boxes in
      order, and only refused boxes dropped. */
  lemma LoadProjectReads(doc: Json)
    ensures var r := LoadProject(doc);
      r.ok ==> forall k :: 0 <= k < |r.containers| ==>
        LoadedFrom(doc.fields["containers"].items[k], r.containers[k])
  {
    var r := LoadProject(doc);
    if r.ok {
      var records := doc.fields["containers"].items;
      forall k | 0 <= k < |r.containers|
        ensures LoadedFrom(records[k], r.containers[k])
      {
        ContainerFromRecordReads(records[k]);
      }
    }
  }

  // ---------------------------------------------------------------------------
  // Save, then load

  /** Re-adding the boxes of a valid container, in order, keeps every one. */
  lemma {:induction false} ReAddKeepsValidBoxes(c: C.Container, k: nat)
    requires C.Valid(c) && k <= |c.boxes|
    ensures AddRecords(c.(boxes := c.boxes[..k]), BoxRecords(c.boxes[k..])) == c
    decreases |c.boxes| - k
  {
    var prefix := c.(boxes := c.boxes[..k]);
    if k == |c.boxes| {
      assert c.boxes[..k] == c.boxes;
    } else {
      var b := c.boxes[k];
      var records := BoxRecords(c.boxes[k..]);
      RecordRoundTrip(b);
      assert records[0] == BoxRecord(b);
      assert records[1..] == BoxRecords(c.boxes[k + 1..]);
      assert L.CanPlace(prefix, b) by {
        L.CanPlaceAgreesForNonMembers(prefix, b);
        assert forall l :: 0 <= l < |prefix.boxes| ==> prefix.boxes[l] == c.boxes[l];
      }
      assert c.boxes[..k] + [b] == c.boxes[..k + 1];
      ReAddKeepsValidBoxes(c, k + 1);
    }
  }

  /** A saved container whose boxes are in bounds and do not overlap, and
      whose dimensions are not zero, is read back unchanged. */
  lemma ContainerRoundTrip(c: C.Container)
    requires C.Valid(c) && c.length != 0.0 && c.width != 0.0
    ensures ContainerFromRecord(ContainerRecord(c)) == Some(c)
  {
    var o := ContainerRecord(c).fields;
    assert TextField(o, "name", DefaultContainerName) == Some(c.name);
    assert DimensionField(o, "length", L.DefaultLength) == Some(c.length);
    assert DimensionField(o, "width", L.DefaultWidth) == Some(c.width);
    var empty := L.NewContainer(c.name, Some(c.length), Some(c.width));
    assert empty == c.(boxes := c.boxes[..0]);
    assert c.boxes[0..] == c.boxes;
    ReAddKeepsValidBoxes(c, 0);
    assert o["boxes"].items == BoxRecords(c.boxes);
  }

  /** Loading what was saved gives back the containers, the pending boxes
      and the project information, provided every container is valid and has
      non-zero dimensions. */
  lemma SaveThenLoad(cs: seq<C.Container>, pending: seq<Box>, name: Option<string>, created: string)
    requires forall k :: 0 <= k < |cs| ==> C.Valid(cs[k]) && cs[k].length != 0.0 && cs[k].width != 0.0
    ensures LoadProject(SaveProject(cs, pending, name, created)) == Loaded(true, cs, pending, ProjectInfo(name, created))
  {
    var doc := SaveProject(cs, pending, name, created);
    var records := doc.fields["containers"].items;
    forall k | 0 <= k < |cs|
      ensures ContainerFromRecord(records[k]) == Some(cs[k])
    {
      ContainerRoundTrip(cs[k]);
    }
    LoadAllContainers(records, cs);
    RecordsRoundTrip(pending);
  }

  lemma {:induction false} LoadAllContainers(records: seq<Json>, cs: seq<C.Container>)
    requires |records| == |cs|
    requires forall k :: 0 <= k < |cs| ==> ContainerFromRecord(records[k]) == Some(cs[k])
    ensures LoadContainers(records) == Some(cs)
    decreases |cs|
  {
    if |cs| > 0 {
      forall k | 0 <= k < |cs| - 1
        ensures ContainerFromRecord(records[1..][k]) == Some(cs[1..][k])
      {
        assert records[1..][k] == records[k + 1] && cs[1..][k] == cs[k + 1];
      }
      LoadAllContainers(records[1..], cs[1..]);
      LoadContainersCons(records, cs[0], cs[1..]);
      assert cs == [cs[0]] + cs[1..];
    }
  }

  /** One step of `LoadContainers`: the first record's container, then the
      rest. */
  lemma LoadContainersCons(records: seq<Json>, c: C.Container, cs: seq<C.Container>)
    requires |records| > 0
    requires ContainerFromRecord(records[0]) == Some(c) && LoadContainers(records[1..]) == Some(cs)
    ensures LoadContainers(records) == Some([c] + cs)
  {
  }

  /** A box that overlaps an earlier one in the same container is dropped
      on load, and the load still succeeds. */
  lemma OverlappingBoxIsDropped(name: string, a: Box)
    requires HasExtent(a) && C.InBounds(L.NewContainer(name, None, None), a)
    ensures var doc := Obj(map[
        "project_info" := Obj(map[]),
        "containers" := Arr([Obj(map["name" := Str(name), "boxes" := Arr([BoxRecord(a), BoxRecord(a)])])]),
        "pending_boxes" := Arr([])]);
      var r := LoadProject(doc);
      r.ok && r.containers == [L.NewContainer(name, None, None).(boxes := [a])]
  {
    var once := L.NewContainer(name, None, None).(boxes := [a]);
    var record := Obj(map["name" := Str(name), "boxes" := Arr([BoxRecord(a), BoxRecord(a)])]);
    var doc := Obj(map[
        "project_info" := Obj(map[]),
        "containers" := Arr([record]),
        "pending_boxes" := Arr([])]);
    TwinRecordKeepsOne(name, a);
    LoadAllContainers([record], [once]);
    assert ValidContainerRecord(record);
    assert ValidateProject(doc);
  }

  /** The container record of `OverlappingBoxIsDropped` loads with one copy
      of the box. */
  lemma TwinRecordKeepsOne(name: string, a: Box)
    requires HasExtent(a) && C.InBounds(L.NewContainer(name, None, None), a)
    ensures ContainerFromRecord(Obj(map["name" := Str(name), "boxes" := Arr([BoxRecord(a), BoxRecord(a)])]))
      == Some(L.NewContainer(name, None, None).(boxes := [a]))
  {
    var empty := L.NewContainer(name, None, None);
    var o := map["name" := Str(name), "boxes" := Arr([BoxRecord(a), BoxRecord(a)])];
    assert TextField(o, "name", DefaultContainerName) == Some(name);
    assert DimensionField(o, "length", L.DefaultLength) == Some(L.DefaultLength);
    assert DimensionField(o, "width", L.DefaultWidth) == Some(L.DefaultWidth);
    ReadsAs(Obj(o), name, L.DefaultLength, L.DefaultWidth);
    assert L.NewContainer(name, Some(L.DefaultLength), Some(L.DefaultWidth)) == empty;
    TwinBoxesKeepOne(empty, a);
  }

  /** A record whose fields read as `name`, `length` and `width` gives the
      container with those and its boxes added in order. */
  lemma ReadsAs(j: Json, name: string, length: real, width: real)
    requires j.Obj? && "boxes" in j.fields && j.fields["boxes"].Arr?
    requires TextField(j.fields, "name", DefaultContainerName) == Some(name)
    requires DimensionField(j.fields, "length", L.DefaultLength) == Some(length)
    requires DimensionField(j.fields, "width", L.DefaultWidth) == Some(width)
    ensures ContainerFromRecord(j) == Some(AddRecords(L.NewContainer(name, Some(length), Some(width)), j.fields["boxes"].items))
  {
  }

  /** Adding the same box record twice to an empty container where the box
      fits keeps the box once: the second copy overlaps the first. */
  lemma TwinBoxesKeepOne(empty: C.Container, a: Box)
    requires empty.boxes == [] && HasExtent(a) && C.InBounds(empty, a)
    ensures AddRecords(empty, [BoxRecord(a), BoxRecord(a)]) == empty.(boxes := [a])
  {
    var records := [BoxRecord(a), BoxRecord(a)];
    RecordRoundTrip(a);
    var once := L.AddBox(empty, a).1;
    assert once == empty.(boxes := [a]);
    BoxOverlapsItself(a);
    assert !L.CanPlace(once, a) by {
      L.CanPlaceAgreesForNonMembers(once, a);
    }
    assert records[1..] == [BoxRecord(a)];
    assert AddRecords(once, records[1..]) == once by {
      assert records[1..][1..] == [];
    }
  }
}
