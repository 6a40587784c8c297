/**
 * The canvas change detector: `detectCanvasChanges` compares two TLDraw
 * snapshots and reports additions, removals and modifications of shapes,
 * keyed by shape id. Base64 and JSON decoding are a parameter (`decode`);
 * coordinates are integers.
 */
module CanvasChanges {
  import opened Wrappers
  import opened Strings

  /** A TLDraw shape record; `shapeType` is the record's `type` field. */
  datatype Shape = Shape(
    id: string,
    shapeType: string,
    x: int,
    y: int,
    width: Option<int>,
    height: Option<int>,
    text: Option<string>)

  /** A decoded snapshot document; its `shapes` field may be missing. */
  datatype CanvasData = CanvasData(shapes: Option<seq<Shape>>)

  /** The outcome of `JSON.parse(atob(payload))` on one snapshot payload. */
  datatype Decoded = Parsed(data: CanvasData) | DecodeError

  datatype ChangeType = Addition | Removal | Modification

  datatype Position = Position(x: int, y: int)

  datatype Details = Details(
    previousValue: Option<string>,
    newValue: Option<string>,
    position: Option<Position>)

  /** A `CanvasChange`; `changeType` is the record's `type` field. */
  datatype CanvasChange = CanvasChange(
    changeType: ChangeType,
    element: string,
    location: string,
    details: Option<Details>)

  /** `data.shapes?.…`: a missing `shapes` field reads as no shapes at all. */
  function ShapesOf(d: CanvasData): seq<Shape>
  {
    d.shapes.GetOr([])
  }

  /** `new Set(shapes.map(s => s.id))`. */
  function Ids(shapes: seq<Shape>): set<string>
  {
    set s | s in shapes :: s.id
  }

  /** The display string `x: ${x}, y: ${y}`. */
  function Location(x: int, y: int): string
  {
    "x: " + IntToString(x) + ", y: " + IntToString(y)
  }

  /** The location string shows both coordinates: distinct positions never share one. */
  lemma LocationInjective(x: int, y: int, x': int, y': int)
    requires Location(x, y) == Location(x', y')
    ensures x == x' && y == y'
  {
    var a, b := IntToString(x), IntToString(y);
    var a', b' := IntToString(x'), IntToString(y');
    NoCommaInNumeral(x);
    NoCommaInNumeral(x');
    assert Location(x, y) == ("x: " + a) + [','] + (" y: " + b);
    assert Location(x', y') == ("x: " + a') + [','] + (" y: " + b');
    CommaSplitUnique("x: " + a, " y: " + b, "x: " + a', " y: " + b');
    assert a == ("x: " + a)[3..] && a' == ("x: " + a')[3..];
    assert b == (" y: " + b)[4..] && b' == (" y: " + b')[4..];
    IntToStringInjective(x, x');
    IntToStringInjective(y, y');
  }

  lemma CommaSplitUnique(a: string, b: string, a': string, b': string)
    requires ',' !in a && ',' !in a'
    requires a + [','] + b == a' + [','] + b'
    ensures a == a' && b == b'
  {
    IndexOfFirstChar(a, ',', b);
    IndexOfFirstChar(a', ',', b');
    var s := a + [','] + b;
    assert |a| == |a'|;
    assert a == s[..|a|] && a' == s[..|a'|];
    assert b == s[|a| + 1..] && b' == s[|a'| + 1..];
  }

  lemma NoCommaInNumeral(i: int)
    ensures ',' !in "x: " + IntToString(i)
  {
    var n := if i < 0 then -i else i;
    var d := NatToString(n);
    assert forall k :: 0 <= k < |d| ==> d[k] != ',';
  }

  function AdditionOf(s: Shape): CanvasChange
  {
    CanvasChange(Addition, s.shapeType, Location(s.x, s.y),
      Some(Details(None, None, Some(Position(s.x, s.y)))))
  }

  function RemovalOf(s: Shape): CanvasChange
  {
    CanvasChange(Removal, s.shapeType, Location(s.x, s.y), None)
  }

  /** The record of a text edit: labelled "text", absent text shown as "". */
  function TextChangeOf(prev: Shape, curr: Shape): CanvasChange
  {
    CanvasChange(Modification, "text", Location(curr.x, curr.y),
      Some(Details(Some(prev.text.GetOr("")), Some(curr.text.GetOr("")), Some(Position(curr.x, curr.y)))))
  }

  function GeometryChangeOf(curr: Shape): CanvasChange
  {
    CanvasChange(Modification, curr.shapeType, Location(curr.x, curr.y),
      Some(Details(None, None, Some(Position(curr.x, curr.y)))))
  }

  /** `!==` on the four geometry fields; an absent width or height differs from any present one. */
  predicate GeometryDiffers(prev: Shape, curr: Shape)
  {
    prev.x != curr.x || prev.y != curr.y || prev.width != curr.width || prev.height != curr.height
  }

  /** The index `shapes.findIndex(s => s.id === id)` would give. */
  function IndexOfId(shapes: seq<Shape>, id: string): (r: Option<nat>)
    ensures r.Some? ==> r.value < |shapes| && shapes[r.value].id == id
    ensures r.Some? ==> forall j :: 0 <= j < r.value ==> shapes[j].id != id
    ensures r.None? ==> forall j :: 0 <= j < |shapes| ==> shapes[j].id != id
  {
    if shapes == [] then None
    else if shapes[0].id == id then Some(0)
    else match IndexOfId(shapes[1..], id)
      case None => None
      case Some(k) => Some(k + 1)
  }

  /** `shapes[k]` is the first shape whose id is `id`. */
  predicate IsFirstWithId(shapes: seq<Shape>, id: string, k: nat)
  {
    k < |shapes| && shapes[k].id == id && forall j :: 0 <= j < k ==> shapes[j].id != id
  }

  /** `shapes.find(s => s.id === id)`: the first shape with that id. */
  function FindById(shapes: seq<Shape>, id: string): (r: Option<Shape>)
    ensures r.None? <==> id !in Ids(shapes)
    ensures r.Some? ==> r.value in shapes && r.value.id == id
    ensures r.Some? ==> exists k: nat :: IsFirstWithId(shapes, id, k) && shapes[k] == r.value
  {
    match IndexOfId(shapes, id)
    case None => None
    case Some(k) => Some(shapes[k])
  }

  /** The comparison of one current shape with its previous version (lines 79-108). */
  function ModificationFor(prev: Option<Shape>, curr: Shape): Option<CanvasChange>
  {
    match prev
    case None => None
    case Some(p) =>
      if p.text != curr.text then Some(TextChangeOf(p, curr))
      else if GeometryDiffers(p, curr) then Some(GeometryChangeOf(curr))
      else None
  }

  /** One of the three `forEach` passes, with the data it consults. */
  datatype Pass =
    | AdditionPass(prevIds: set<string>)
    | RemovalPass(currIds: set<string>)
    | ModificationPass(prevShapes: seq<Shape>)

  /** What one shape contributes to one pass: at most one record. */
  function Contribution(pass: Pass, s: Shape): Option<CanvasChange>
  {
    match pass
    case AdditionPass(prevIds) => if s.id !in prevIds then Some(AdditionOf(s)) else None
    case RemovalPass(currIds) => if s.id !in currIds then Some(RemovalOf(s)) else None
    case ModificationPass(prevShapes) => ModificationFor(FindById(prevShapes, s.id), s)
  }

  function AsSeq(c: Option<CanvasChange>): seq<CanvasChange>
  {
    match c
    case None => []
    case Some(v) => [v]
  }

  /** One pass as a function from a shape to the record it pushes, if any. */
  function ContributionOf(pass: Pass): Shape -> Option<CanvasChange>
  {
    s => Contribution(pass, s)
  }

  /** The records a `forEach` pass with body `contribute` pushes, in the order of `shapes`. */
  function Gather(contribute: Shape -> Option<CanvasChange>, shapes: seq<Shape>): (r: seq<CanvasChange>)
    ensures |r| <= |shapes|
  {
    if shapes == [] then []
    else Gather(contribute, shapes[..|shapes| - 1]) + AsSeq(contribute(shapes[|shapes| - 1]))
  }

  /** The records one of the three passes pushes. */
  function Collect(pass: Pass, shapes: seq<Shape>): seq<CanvasChange>
  {
    Gather(ContributionOf(pass), shapes)
  }

  /** The change list of two decoded shape lists: additions, then removals, then modifications. */
  function Changes(prev: seq<Shape>, curr: seq<Shape>): seq<CanvasChange>
  {
    Collect(AdditionPass(Ids(prev)), curr)
      + Collect(RemovalPass(Ids(curr)), prev)
      + Collect(ModificationPass(prev), curr)
  }

  /**
   * `previousCanvas.split(',')[1]`: the segment after the first comma, up to
   * the next comma or the end, if there is a comma.
   */
  function EnvelopePayload(encoded: string): (r: Option<string>)
    ensures r.Some? <==> ',' in encoded
    ensures r.Some? ==> ',' !in r.value
    ensures r.Some? ==> IndexOf(encoded, [',']).Some?
    ensures r.Some? ==> var k := IndexOf(encoded, [',']).value; var e := k + 1 + |r.value|;
      && e <= |encoded| && encoded[k + 1..e] == r.value && (e == |encoded| || encoded[e] == ',')
  {
    var pieces := Split(encoded, ',');
    if |pieces| >= 2 then
      assert IndexOf(encoded, [',']).Some?;
      var k := IndexOf(encoded, [',']).value;
      OccursAtChar(encoded, ',', k);
      SplitAtFirst(encoded, ',', k);
      SplitFirstPiece(encoded[k + 1..], ',');
      Some(pieces[1])
    else
      assert ',' !in encoded by { JoinSplit(encoded, ','); }
      None
  }

  /** The result of `detectCanvasChanges`, with `decode` standing for `JSON.parse(atob(·))`. */
  function DetectChanges(previousCanvas: string, currentCanvas: string, decode: string -> Decoded): (r: seq<CanvasChange>)
    ensures (',' !in previousCanvas || ',' !in currentCanvas) ==> r == []
  {
    match (EnvelopePayload(previousCanvas), EnvelopePayload(currentCanvas))
    // atob(undefined) decodes the nine characters "undefined", which is not valid base64: it throws
    case (Some(p), Some(c)) => ChangesOfDecoded(decode(p), decode(c))
    case _ => []
  }

  /** A failed decode of either side is caught and gives the empty list. */
  function ChangesOfDecoded(prev: Decoded, curr: Decoded): (r: seq<CanvasChange>)
    ensures (prev.DecodeError? || curr.DecodeError?) ==> r == []
  {
    if prev.DecodeError? || curr.DecodeError? then []
    else Changes(ShapesOf(prev.data), ShapesOf(curr.data))
  }

  /**
   * `detectCanvasChanges`: the three `forEach` passes push into `changes`;
   * a throw while decoding leaves it empty.
   */
  method DetectCanvasChanges(previousCanvas: string, currentCanvas: string, decode: string -> Decoded)
    returns (changes: seq<CanvasChange>)
    ensures changes == DetectChanges(previousCanvas, currentCanvas, decode)
  {
    changes := [];
    var prevBase64 := EnvelopePayload(previousCanvas);
    var currBase64 := EnvelopePayload(currentCanvas);
    if prevBase64.None? || currBase64.None? {
      return;
    }
    var prevData := decode(prevBase64.value);
    var currData := decode(currBase64.value);
    if prevData.DecodeError? || currData.DecodeError? {
      return;
    }
    changes := ListChanges(ShapesOf(prevData.data), ShapesOf(currData.data));
  }

  /** The three `forEach` passes of `detectCanvasChanges` over the decoded shape lists. */
  method ListChanges(prevList: seq<Shape>, currList: seq<Shape>) returns (changes: seq<CanvasChange>)
    ensures changes == Changes(prevList, currList)
  {
    changes := PushAdditions([], Ids(prevList), currList);
    changes := PushRemovals(changes, Ids(currList), prevList);
    changes := PushModifications(changes, prevList, currList);
  }

  /** Find new shapes: every current shape whose id the previous snapshot lacks. */
  method PushAdditions(start: seq<CanvasChange>, prevShapes: set<string>, currList: seq<Shape>)
    returns (changes: seq<CanvasChange>)
    ensures changes == start + Collect(AdditionPass(prevShapes), currList)
  {
    changes := start;
    var i := 0;
    while i < |currList|
      invariant 0 <= i <= |currList|
      invariant changes == start + Collect(AdditionPass(prevShapes), currList[..i])
    {
      var shape := currList[i];
      if shape.id !in prevShapes {
        PushStep(AdditionPass(prevShapes), currList, i, start, changes, AdditionOf(shape));
        changes := changes + [AdditionOf(shape)];
      } else {
        SkipStep(AdditionPass(prevShapes), currList, i, start, changes);
      }
      i := i + 1;
    }
    assert currList[..i] == currList;
  }

  /** Find removed shapes: every previous shape whose id the current snapshot lacks. */
  method PushRemovals(start: seq<CanvasChange>, currShapes: set<string>, prevList: seq<Shape>)
    returns (changes: seq<CanvasChange>)
    ensures changes == start + Collect(RemovalPass(currShapes), prevList)
  {
    changes := start;
    var i := 0;
    while i < |prevList|
      invariant 0 <= i <= |prevList|
      invariant changes == start + Collect(RemovalPass(currShapes), prevList[..i])
    {
      var shape := prevList[i];
      if shape.id !in currShapes {
        PushStep(RemovalPass(currShapes), prevList, i, start, changes, RemovalOf(shape));
        changes := changes + [RemovalOf(shape)];
      } else {
        SkipStep(RemovalPass(currShapes), prevList, i, start, changes);
      }
      i := i + 1;
    }
    assert prevList[..i] == prevList;
  }

  /** Detect modifications to existing shapes: a text edit first, else a moved or resized shape. */
  method PushModifications(start: seq<CanvasChange>, prevList: seq<Shape>, currList: seq<Shape>)
    returns (changes: seq<CanvasChange>)
    ensures changes == start + Collect(ModificationPass(prevList), currList)
  {
    changes := start;
    var pass := ModificationPass(prevList);
    var i := 0;
    while i < |currList|
      invariant 0 <= i <= |currList|
      invariant changes == start + Collect(pass, currList[..i])
    {
      var currShape := currList[i];
      var prevShape := FindById(prevList, currShape.id);
      if prevShape.Some? {
        var p := prevShape.value;
        if p.text != currShape.text {
          PushStep(pass, currList, i, start, changes, TextChangeOf(p, currShape));
          changes := changes + [TextChangeOf(p, currShape)];
        } else if GeometryDiffers(p, currShape) {
          PushStep(pass, currList, i, start, changes, GeometryChangeOf(currShape));
          changes := changes + [GeometryChangeOf(currShape)];
        } else {
          SkipStep(pass, currList, i, start, changes);
        }
      } else {
        SkipStep(pass, currList, i, start, changes);
      }
      i := i + 1;
    }
    assert currList[..i] == currList;
  }

  /** One loop step that pushes the shape's record keeps `changes == base + Collect(pass, shapes[..i])`. */
  lemma PushStep(pass: Pass, shapes: seq<Shape>, i: nat, base: seq<CanvasChange>, acc: seq<CanvasChange>, c: CanvasChange)
    requires i < |shapes|
    requires acc == base + Collect(pass, shapes[..i])
    requires Contribution(pass, shapes[i]) == Some(c)
    ensures acc + [c] == base + Collect(pass, shapes[..i + 1])
  {
    GatherStep(ContributionOf(pass), shapes, i);
  }

  /** One loop step that pushes nothing keeps the same relation. */
  lemma SkipStep(pass: Pass, shapes: seq<Shape>, i: nat, base: seq<CanvasChange>, acc: seq<CanvasChange>)
    requires i < |shapes|
    requires acc == base + Collect(pass, shapes[..i])
    requires Contribution(pass, shapes[i]).None?
    ensures acc == base + Collect(pass, shapes[..i + 1])
  {
    GatherStep(ContributionOf(pass), shapes, i);
  }

  // ----- Properties of one pass -----

  /** A pass over `a + b` pushes the records of `a`, then those of `b`. */
  lemma {:induction false} GatherAppend(f: Shape -> Option<CanvasChange>, a: seq<Shape>, b: seq<Shape>)
    ensures Gather(f, a + b) == Gather(f, a) + Gather(f, b)
    decreases |b|
  {
    if b == [] {
      assert a + b == a;
    } else {
      var b' := b[..|b| - 1];
      assert (a + b)[..|a + b| - 1] == a + b';
      assert (a + b)[|a + b| - 1] == b[|b| - 1];
      GatherAppend(f, a, b');
    }
  }

  /**
   * The record contributed by `shapes[i]` stands in the pass's output right after
   * the records of the shapes before it: order follows the list.
   */
  lemma GatherAt(f: Shape -> Option<CanvasChange>, shapes: seq<Shape>, i: nat)
    requires i < |shapes| && f(shapes[i]).Some?
    ensures |Gather(f, shapes[..i])| < |Gather(f, shapes)|
    ensures Gather(f, shapes)[|Gather(f, shapes[..i])|] == f(shapes[i]).value
  {
    assert shapes == shapes[..i] + [shapes[i]] + shapes[i + 1..];
    GatherAppend(f, shapes[..i] + [shapes[i]], shapes[i + 1..]);
    GatherAppend(f, shapes[..i], [shapes[i]]);
    assert [shapes[i]][..0] == [];
  }

  /** Of two contributing shapes, the earlier one's record comes first. */
  lemma GatherOrder(f: Shape -> Option<CanvasChange>, shapes: seq<Shape>, i: nat, j: nat)
    requires i < j <= |shapes|
    requires f(shapes[i]).Some?
    ensures |Gather(f, shapes[..i])| < |Gather(f, shapes[..j])|
  {
    var front, back := shapes[..i + 1], shapes[i + 1..j];
    assert shapes[..j] == front + back;
    GatherAppend(f, front, back);
    assert front[..i] == shapes[..i];
  }

  /** One more step of a pass: the records so far, then those of the next shape. */
  lemma GatherStep(f: Shape -> Option<CanvasChange>, shapes: seq<Shape>, i: nat)
    requires i < |shapes|
    ensures Gather(f, shapes[..i + 1]) == Gather(f, shapes[..i]) + AsSeq(f(shapes[i]))
  {
    assert shapes[..i + 1][..i] == shapes[..i];
  }

  /** A record is pushed by a pass exactly when some shape contributes it. */
  lemma {:induction false} GatherMember(f: Shape -> Option<CanvasChange>, shapes: seq<Shape>, c: CanvasChange)
    ensures c in Gather(f, shapes) <==>
      exists i :: 0 <= i < |shapes| && f(shapes[i]) == Some(c)
    decreases |shapes|
  {
    if shapes != [] {
      var n := |shapes| - 1;
      var init := shapes[..n];
      GatherMember(f, init, c);
      assert Gather(f, shapes) == Gather(f, init) + AsSeq(f(shapes[n]));
      if c in Gather(f, shapes) {
        if c in Gather(f, init) {
          var i :| 0 <= i < |init| && f(init[i]) == Some(c);
          assert init[i] == shapes[i];
        } else {
          assert f(shapes[n]) == Some(c);
        }
      } else {
        forall i | 0 <= i < |shapes|
          ensures f(shapes[i]) != Some(c)
        {
          if i < n {
            assert init[i] == shapes[i];
          }
        }
      }
    }
  }

  /** A pass stays silent exactly when no shape contributes. */
  lemma {:induction false} GatherEmpty(f: Shape -> Option<CanvasChange>, shapes: seq<Shape>)
    ensures Gather(f, shapes) == [] <==>
      forall i :: 0 <= i < |shapes| ==> f(shapes[i]).None?
    decreases |shapes|
  {
    if shapes != [] {
      var n := |shapes| - 1;
      var init := shapes[..n];
      GatherEmpty(f, init);
      assert Gather(f, shapes) == Gather(f, init) + AsSeq(f(shapes[n]));
      if Gather(f, shapes) == [] {
        forall i | 0 <= i < |shapes|
          ensures f(shapes[i]).None?
        {
          if i < n {
            assert init[i] == shapes[i];
          }
        }
      } else if Gather(f, init) != [] {
        var i :| 0 <= i < |init| && f(init[i]).Some?;
        assert init[i] == shapes[i];
      }
    }
  }

  function KindOf(pass: Pass): ChangeType
  {
    match pass
    case AdditionPass(_) => Addition
    case RemovalPass(_) => Removal
    case ModificationPass(_) => Modification
  }

  lemma ContributionKind(pass: Pass, s: Shape)
    ensures Contribution(pass, s).Some? ==> Contribution(pass, s).value.changeType == KindOf(pass)
  {
  }

  /** Every record a pass pushes carries that pass's change type. */
  lemma CollectKind(pass: Pass, shapes: seq<Shape>)
    ensures forall k :: 0 <= k < |Collect(pass, shapes)| ==> Collect(pass, shapes)[k].changeType == KindOf(pass)
  {
    forall k | 0 <= k < |Collect(pass, shapes)|
      ensures Collect(pass, shapes)[k].changeType == KindOf(pass)
    {
      var c := Collect(pass, shapes)[k];
      GatherMember(ContributionOf(pass), shapes, c);
      var i :| 0 <= i < |shapes| && ContributionOf(pass)(shapes[i]) == Some(c);
      ContributionKind(pass, shapes[i]);
    }
  }

  // ----- Properties of the change list -----

  function Rank(t: ChangeType): nat
  {
    match t
    case Addition => 0
    case Removal => 1
    case Modification => 2
  }

  /** All additions come first, then all removals, then all modifications. */
  lemma GroupsInOrder(prev: seq<Shape>, curr: seq<Shape>)
    ensures var r := Changes(prev, curr);
      forall i, j :: 0 <= i < j < |r| ==> Rank(r[i].changeType) <= Rank(r[j].changeType)
  {
    var a := Collect(AdditionPass(Ids(prev)), curr);
    var m := Collect(RemovalPass(Ids(curr)), prev);
    var d := Collect(ModificationPass(prev), curr);
    CollectKind(AdditionPass(Ids(prev)), curr);
    CollectKind(RemovalPass(Ids(curr)), prev);
    CollectKind(ModificationPass(prev), curr);
    var r := a + m + d;
    assert forall k :: 0 <= k < |r| ==>
      Rank(r[k].changeType) == (if k < |a| then 0 else if k < |a| + |m| then 1 else 2);
  }

  /**
   * A current shape whose id the previous snapshot lacks yields its addition record,
   * at the position given by the new shapes before it; such an id never yields a modification.
   */
  lemma AdditionOfNewShape(prev: seq<Shape>, curr: seq<Shape>, i: nat)
    requires i < |curr| && curr[i].id !in Ids(prev)
    ensures var k := |Collect(AdditionPass(Ids(prev)), curr[..i])|;
      k < |Changes(prev, curr)| && Changes(prev, curr)[k] == AdditionOf(curr[i])
    ensures Contribution(ModificationPass(prev), curr[i]).None?
  {
    GatherAt(ContributionOf(AdditionPass(Ids(prev))), curr, i);
  }

  /** The additions are exactly the addition records of the new current shapes. */
  lemma AdditionsAreNewShapes(prev: seq<Shape>, curr: seq<Shape>, c: CanvasChange)
    ensures c in Collect(AdditionPass(Ids(prev)), curr) <==>
      exists i :: 0 <= i < |curr| && curr[i].id !in Ids(prev) && c == AdditionOf(curr[i])
  {
    GatherMember(ContributionOf(AdditionPass(Ids(prev))), curr, c);
  }

  /** A previous shape whose id the current snapshot lacks yields its removal record, in previous-list order. */
  lemma RemovalOfDeletedShape(prev: seq<Shape>, curr: seq<Shape>, i: nat)
    requires i < |prev| && prev[i].id !in Ids(curr)
    ensures var k := |Collect(AdditionPass(Ids(prev)), curr)| + |Collect(RemovalPass(Ids(curr)), prev[..i])|;
      k < |Changes(prev, curr)| && Changes(prev, curr)[k] == RemovalOf(prev[i])
  {
    var f := ContributionOf(RemovalPass(Ids(curr)));
    assert f(prev[i]) == Some(RemovalOf(prev[i]));
    GatherAt(f, prev, i);
    InMiddle(Collect(AdditionPass(Ids(prev)), curr), Collect(RemovalPass(Ids(curr)), prev),
             Collect(ModificationPass(prev), curr), |Collect(RemovalPass(Ids(curr)), prev[..i])|);
  }

  /** Indexing the middle part of a three-part list. */
  lemma InMiddle(a: seq<CanvasChange>, r: seq<CanvasChange>, m: seq<CanvasChange>, j: nat)
    requires j < |r|
    ensures |a| + j < |a + r + m| && (a + r + m)[|a| + j] == r[j]
  {
  }

  /** The removals are exactly the removal records of the deleted previous shapes; none has details. */
  lemma RemovalsAreDeletedShapes(prev: seq<Shape>, curr: seq<Shape>, c: CanvasChange)
    ensures c in Collect(RemovalPass(Ids(curr)), prev) <==>
      exists i :: 0 <= i < |prev| && prev[i].id !in Ids(curr) && c == RemovalOf(prev[i])
    ensures c in Collect(RemovalPass(Ids(curr)), prev) ==> c.details.None?
  {
    GatherMember(ContributionOf(RemovalPass(Ids(curr))), prev, c);
  }

  /**
   * How a shape kept under the same id is reported: a text difference gives the one
   * text record, whatever the geometry did; otherwise a geometry difference gives one
   * geometry record; otherwise nothing.
   */
  lemma ModificationCases(prev: Shape, curr: Shape)
    ensures var m := ModificationFor(Some(prev), curr);
      && (m.Some? <==> prev.text != curr.text || GeometryDiffers(prev, curr))
      && (m.Some? ==> m.value.changeType == Modification && m.value.location == Location(curr.x, curr.y)
                      && m.value.details.Some? && m.value.details.value.position == Some(Position(curr.x, curr.y)))
      && (m.Some? ==> (m.value.details.value.previousValue.Some? <==> prev.text != curr.text))
      && (prev.text != curr.text ==>
            && m.value.element == "text"
            && m.value.details.value.previousValue == Some(prev.text.GetOr(""))
            && m.value.details.value.newValue == Some(curr.text.GetOr("")))
      && (prev.text == curr.text && m.Some? ==>
            && m.value.element == curr.shapeType
            && m.value.details.value.newValue.None?)
  {
  }

  /**
   * For current shape `curr[i]` whose id the previous list has, the first previous
   * shape with that id is the one compared, and its record (if any) stands at the
   * position given by the modifications of the shapes before it.
   */
  lemma ModificationOfKeptShape(prev: seq<Shape>, curr: seq<Shape>, i: nat)
    requires i < |curr| && curr[i].id in Ids(prev)
    ensures var p := FindById(prev, curr[i].id);
      && p.Some? && p.value in prev
      && (p.value.text != curr[i].text || GeometryDiffers(p.value, curr[i]) ==>
          var base := |Collect(AdditionPass(Ids(prev)), curr)| + |Collect(RemovalPass(Ids(curr)), prev)|;
          var k := base + |Collect(ModificationPass(prev), curr[..i])|;
          k < |Changes(prev, curr)| && Changes(prev, curr)[k] == ModificationFor(p, curr[i]).value)
  {
    var p := FindById(prev, curr[i].id);
    if p.value.text != curr[i].text || GeometryDiffers(p.value, curr[i]) {
      GatherAt(ContributionOf(ModificationPass(prev)), curr, i);
    }
  }

  /** Within one snapshot no two shapes share an id. */
  predicate UniqueIds(shapes: seq<Shape>)
  {
    forall i, j :: 0 <= i < j < |shapes| ==> shapes[i].id != shapes[j].id
  }

  /** Two identical snapshots with unique ids give no changes at all. */
  lemma IdenticalSnapshotsNoChanges(shapes: seq<Shape>)
    requires UniqueIds(shapes)
    ensures Changes(shapes, shapes) == []
  {
    var ids := Ids(shapes);
    forall i | 0 <= i < |shapes|
      ensures Contribution(AdditionPass(ids), shapes[i]).None?
      ensures Contribution(RemovalPass(ids), shapes[i]).None?
      ensures Contribution(ModificationPass(shapes), shapes[i]).None?
    {
      assert shapes[i] in shapes;
      var k := IndexOfId(shapes, shapes[i].id).value;
      assert k == i;
    }
    GatherEmpty(ContributionOf(AdditionPass(ids)), shapes);
    GatherEmpty(ContributionOf(RemovalPass(ids)), shapes);
    GatherEmpty(ContributionOf(ModificationPass(shapes)), shapes);
  }

  /**
   * Without unique ids the previous property fails: `find` compares the second
   * shape with the first one of the same id, so identical lists report a text edit.
   */
  lemma DuplicateIdsReportChanges()
    ensures var shapes := [Shape("a", "text", 0, 0, None, None, Some("1")),
                           Shape("a", "text", 0, 0, None, None, Some("2"))];
      Changes(shapes, shapes) != []
  {
    var s0 := Shape("a", "text", 0, 0, None, None, Some("1"));
    var s1 := Shape("a", "text", 0, 0, None, None, Some("2"));
    var shapes := [s0, s1];
    assert IndexOfId(shapes, "a") == Some(0);
    assert Contribution(ModificationPass(shapes), shapes[1]) == Some(TextChangeOf(s0, s1));
    GatherAt(ContributionOf(ModificationPass(shapes)), shapes, 1);
  }

  /** Decoding failures never raise: either side failing yields the empty list. */
  lemma DecodeFailureGivesNoChanges(previousCanvas: string, currentCanvas: string, decode: string -> Decoded)
    requires EnvelopePayload(previousCanvas).Some? && EnvelopePayload(currentCanvas).Some?
    requires decode(EnvelopePayload(previousCanvas).value).DecodeError?
      || decode(EnvelopePayload(currentCanvas).value).DecodeError?
    ensures DetectChanges(previousCanvas, currentCanvas, decode) == []
  {
  }

  /** A missing `shapes` field behaves as an empty shape list. */
  lemma MissingShapesIsEmpty(other: CanvasData)
    ensures ChangesOfDecoded(Parsed(CanvasData(None)), Parsed(other))
         == ChangesOfDecoded(Parsed(CanvasData(Some([]))), Parsed(other))
    ensures ChangesOfDecoded(Parsed(other), Parsed(CanvasData(None)))
         == ChangesOfDecoded(Parsed(other), Parsed(CanvasData(Some([]))))
  {
  }

  /** The worked example: a rectangle moved right and a new text shape. */
  const RectBefore := Shape("a", "rect", 0, 0, None, None, None)
  const RectAfter := Shape("a", "rect", 10, 0, None, None, None)
  const NewText := Shape("b", "text", 5, 5, None, None, Some("hi"))

  lemma MovedRectangleAndNewText()
    ensures Changes([RectBefore], [RectAfter, NewText]) == [
        CanvasChange(Addition, "text", "x: 5, y: 5", Some(Details(None, None, Some(Position(5, 5))))),
        CanvasChange(Modification, "rect", "x: 10, y: 0", Some(Details(None, None, Some(Position(10, 0)))))]
  {
    assert Ids([RectBefore]) == {"a"};
    assert Ids([RectAfter, NewText]) == {"a", "b"};
    ExampleAdditions();
    ExampleRemovals();
    ExampleModifications();
  }

  lemma ExampleAdditions()
    ensures Collect(AdditionPass({"a"}), [RectAfter, NewText])
            == [CanvasChange(Addition, "text", "x: 5, y: 5", Some(Details(None, None, Some(Position(5, 5)))))]
  {
    GatherTwo(ContributionOf(AdditionPass({"a"})), RectAfter, NewText);
    ExampleLocations();
  }

  lemma ExampleRemovals()
    ensures Collect(RemovalPass({"a", "b"}), [RectBefore]) == []
  {
    GatherOne(ContributionOf(RemovalPass({"a", "b"})), RectBefore);
  }

  lemma ExampleModifications()
    ensures Collect(ModificationPass([RectBefore]), [RectAfter, NewText])
            == [CanvasChange(Modification, "rect", "x: 10, y: 0", Some(Details(None, None, Some(Position(10, 0)))))]
  {
    assert IndexOfId([RectBefore], "a") == Some(0);
    assert IndexOfId([RectBefore], "b") == None;
    GatherTwo(ContributionOf(ModificationPass([RectBefore])), RectAfter, NewText);
    ExampleLocations();
  }

  lemma ExampleLocations()
    ensures Location(5, 5) == "x: 5, y: 5" && Location(10, 0) == "x: 10, y: 0"
  {
    assert IntToString(5) == "5" && IntToString(0) == "0";
    assert NatToString(10) == NatToString(1) + [DigitChar(0)];
    assert IntToString(10) == "10";
  }

  lemma GatherOne(f: Shape -> Option<CanvasChange>, x: Shape)
    ensures Gather(f, [x]) == AsSeq(f(x))
  {
    assert [x][..0] == [];
  }

  lemma GatherTwo(f: Shape -> Option<CanvasChange>, x: Shape, y: Shape)
    ensures Gather(f, [x, y]) == AsSeq(f(x)) + AsSeq(f(y))
  {
    assert [x, y][..1] == [x];
    GatherOne(f, x);
  }
}
