/** js/main.js: the `TextureRipper` application state and its event handlers. The state is
    the list of texture areas, the selected area (`null` when none), the corners clicked so
    far for the next area, and the drawing flag. Canvas drawing, previews, the clipboard and
    file loading are outside the model; each handler takes the event data it uses (the
    pointer position in canvas coordinates, the shift key, the key name). */
module Ripper {
  import opened Types
  import opened Utils
  import opened JsBuiltins
  import opened TextureAreas

  /** The keys `handleKeyPress` dispatches on; every other key is `OtherKey`. */
  datatype Key = KeyC | KeyD | KeyDelete | ArrowLeft | ArrowRight | OtherKey

  /** A pointer closer than this to a corner grabs it. */
  const GrabRadius: real := 10.0

  /** The offset `duplicateSelectedTexture` moves the copy by, on both axes. */
  const DuplicateOffset: real := 20.0

  /** The corners of each area, in list order. */
  function CornersOf(areas: seq<TextureArea>): (corners: seq<seq<Point>>)
    reads areas
    ensures |corners| == |areas| && forall i :: 0 <= i < |areas| ==> corners[i] == areas[i].points
  {
    seq(|areas|, i requires 0 <= i < |areas| reads areas => areas[i].points)
  }

  /** Some corner of the outline lies within the grab radius of p. */
  predicate Grabs(corners: seq<Point>, p: Point) {
    exists k :: 0 <= k < |corners| && IsNearPoint(p, corners[k], GrabRadius)
  }

  /** The position of the first outline, from `from` on, that p grabs; -1 when none does. */
  function FirstGrabbed(outlines: seq<seq<Point>>, p: Point, from: nat): (g: int)
    requires from <= |outlines|
    ensures g == -1 || from <= g < |outlines|
    ensures g == -1 ==> forall i :: from <= i < |outlines| ==> !Grabs(outlines[i], p)
    ensures g >= 0 ==> Grabs(outlines[g], p) && forall i :: from <= i < g ==> !Grabs(outlines[i], p)
    decreases |outlines| - from
  {
    if from == |outlines| then -1
    else if Grabs(outlines[from], p) then from
    else FirstGrabbed(outlines, p, from + 1)
  }

  /** The nearest corner is within the radius exactly when some corner is. */
  lemma NearestDecidesGrab(corners: seq<Point>, p: Point, k: nat)
    requires k < |corners|
    requires forall j :: 0 <= j < |corners| ==> DistSq(p, corners[k]) <= DistSq(p, corners[j])
    ensures IsNearPoint(p, corners[k], GrabRadius) <==> Grabs(corners, p)
  {
  }

  /** No element appears twice. */
  predicate Distinct<T(==)>(s: seq<T>) {
    forall i, j :: 0 <= i < j < |s| ==> s[i] != s[j]
  }

  /** Taking out the first occurrence of x from a list without repeats leaves a list without
      x that holds every other element, in the same order. */
  lemma SpliceOutRemovesExactly<T>(s: seq<T>, x: T)
    requires x in s && Distinct(s)
    ensures var r := SpliceOut(s, IndexOf(s, x));
      x !in r && multiset(r) + multiset{x} == multiset(s) && Distinct(r)
  {
    var i := IndexOf(s, x);
    var r := SpliceOut(s, i);
    assert s == s[..i] + [s[i]] + s[i + 1..];
    assert r == s[..i] + s[i + 1..];
    SpliceOutKeepsDistinct(s, i);
  }

  /** Taking any element out of a list without repeats leaves a list without repeats. */
  lemma SpliceOutKeepsDistinct<T>(s: seq<T>, i: nat)
    requires i < |s| && Distinct(s)
    ensures Distinct(SpliceOut(s, i))
  {
    var r := SpliceOut(s, i);
    forall a, b | 0 <= a < b < |r| ensures r[a] != r[b] {
      var a' := if a < i then a else a + 1;
      var b' := if b < i then b else b + 1;
      assert r[a] == s[a'] && r[b] == s[b'];
    }
  }

  /** What `deleteSelectedTexture` does to the list and the selection: a selected area found
      in the list is taken out at its first position and the selection cleared; otherwise
      nothing changes. */
  predicate Deletion(areas: seq<TextureArea>, selected: TextureArea?, areas': seq<TextureArea>, selected': TextureArea?) {
    if selected != null && selected in areas then
      areas' == SpliceOut(areas, IndexOf(areas, selected)) && selected' == null
    else
      areas' == areas && selected' == selected
  }

  class TextureRipper {
    var textureAreas: seq<TextureArea>
    var selectedArea: TextureArea?
    var currentPoints: seq<Point>
    var isDrawing: bool

    /** The invariant the handlers keep: fewer than four pending corners (a fourth one closes
        an area), the selection is null or one of the listed areas, and no area is listed
        twice. */
    predicate Valid()
      reads this
    {
      |currentPoints| < 4 &&
      (selectedArea != null ==> selectedArea in textureAreas) &&
      Distinct(textureAreas)
    }

    /** The state the application starts in, and the one an image load resets to. */
    predicate Empty()
      reads this
    {
      textureAreas == [] && selectedArea == null && currentPoints == [] && !isDrawing
    }

    constructor ()
      ensures Empty() && Valid()
    {
      textureAreas := [];
      selectedArea := null;
      currentPoints := [];
      isDrawing := false;
    }

    /** The reset `handleImageUpload` performs once the new image is drawn. */
    method ResetForNewImage()
      modifies this
      ensures Empty() && Valid()
    {
      textureAreas := [];
      selectedArea := null;
      currentPoints := [];
      isDrawing := false;
    }

    /** `handleMouseDown` at canvas point (x, y), as written. With fewer than four pending
        corners the point is added, and the fourth closes a new, selected area and clears the
        pending list. Otherwise the areas are searched in list order for one with a corner
        within the grab radius; the first such area is selected with its nearest corner
        active and dragging on. That second branch needs four pending corners, which no
        `Valid` state has, so from the states the application reaches it never runs. */
    method HandleMouseDown(x: real, y: real)
      modifies this, textureAreas
      ensures old(Valid()) ==> Valid()
      ensures forall a :: a in old(textureAreas) ==>
        a.points == old(a.points) && a.selected == old(a.selected) && a.hovering == old(a.hovering) &&
        a.localTransform == old(a.localTransform)
      ensures old(|currentPoints|) < 4 ==>
        forall a :: a in old(textureAreas) ==> a.dragging == old(a.dragging) && a.activePoint == old(a.activePoint)
      ensures old(|currentPoints|) < 3 ==>
        currentPoints == old(currentPoints) + [Point(x, y)] && isDrawing &&
        textureAreas == old(textureAreas) && selectedArea == old(selectedArea)
      ensures old(|currentPoints|) == 3 ==>
        currentPoints == [] && isDrawing && selectedArea != null && fresh(selectedArea) &&
        textureAreas == old(textureAreas) + [selectedArea] &&
        selectedArea.points == old(currentPoints) + [Point(x, y)] && selectedArea.AtRest()
      ensures old(|currentPoints|) >= 4 ==>
        currentPoints == old(currentPoints) && isDrawing == old(isDrawing) && textureAreas == old(textureAreas)
      ensures old(|currentPoints|) >= 4 ==>
        var g := FirstGrabbed(old(CornersOf(textureAreas)), Point(x, y), 0);
        (g == -1 ==> (selectedArea == old(selectedArea) &&
           forall a :: a in textureAreas ==> a.dragging == old(a.dragging) && a.activePoint == old(a.activePoint))) &&
        (g >= 0 ==> (selectedArea == textureAreas[g] && selectedArea.dragging &&
           selectedArea.activePoint.Some? && 0 <= selectedArea.activePoint.value < |selectedArea.points| &&
           IsNearPoint(Point(x, y), selectedArea.points[selectedArea.activePoint.value], GrabRadius) &&
           (forall j :: 0 <= j < |selectedArea.points| ==>
              DistSq(Point(x, y), selectedArea.points[selectedArea.activePoint.value]) <= DistSq(Point(x, y), selectedArea.points[j])) &&
           (forall j :: 0 <= j < selectedArea.activePoint.value ==>
              DistSq(Point(x, y), selectedArea.points[selectedArea.activePoint.value]) < DistSq(Point(x, y), selectedArea.points[j])) &&
           forall a :: a in textureAreas && a != selectedArea ==>
             a.dragging == old(a.dragging) && a.activePoint == old(a.activePoint)))
    {
      if |currentPoints| < 4 {
        AddPoint(x, y);
      } else {
        var g, index := FindGrabbed(x, y);
        if g >= 0 {
          Grab(g, index);
        }
      }
    }

    /** The point-collecting branch of `handleMouseDown`: the point is appended, and a fourth
        one closes a new, selected area and clears the pending list. No existing area is
        touched. */
    method AddPoint(x: real, y: real)
      requires |currentPoints| < 4
      modifies this
      ensures old(Valid()) ==> Valid()
      ensures old(|currentPoints|) < 3 ==>
        currentPoints == old(currentPoints) + [Point(x, y)] && isDrawing &&
        textureAreas == old(textureAreas) && selectedArea == old(selectedArea)
      ensures old(|currentPoints|) == 3 ==>
        currentPoints == [] && isDrawing && selectedArea != null && fresh(selectedArea) &&
        textureAreas == old(textureAreas) + [selectedArea] &&
        selectedArea.points == old(currentPoints) + [Point(x, y)] && selectedArea.AtRest()
    {
      currentPoints := currentPoints + [Point(x, y)];
      isDrawing := true;
      if |currentPoints| == 4 {
        var area := new TextureArea(currentPoints);
        textureAreas := textureAreas + [area];
        selectedArea := area;
        currentPoints := [];
      }
    }

    /** The grab of `handleMouseDown`: area g is selected, with corner `index` active and
        dragging on. Nothing else changes. */
    method Grab(g: nat, index: int)
      requires g < |textureAreas|
      modifies this, textureAreas[g]
      ensures old(Valid()) ==> Valid()
      ensures textureAreas == old(textureAreas) && currentPoints == old(currentPoints) && isDrawing == old(isDrawing)
      ensures selectedArea == textureAreas[g] && selectedArea.dragging && selectedArea.activePoint == Some(index)
      ensures selectedArea.points == old(textureAreas[g].points) && selectedArea.selected == old(textureAreas[g].selected) &&
        selectedArea.hovering == old(textureAreas[g].hovering) && selectedArea.localTransform == old(textureAreas[g].localTransform)
    {
      var area := textureAreas[g];
      selectedArea := area;
      area.activePoint := Some(index);
      area.dragging := true;
    }

    /** `handleMouseDown` as its grab branch evidently intends: the areas are hit-tested
        first, so a click near an existing corner grabs it (the first area within the grab
        radius, at its nearest corner, the lowest-indexed one on ties); any other click is
        handled as before. */
    method HandleMouseDownCorrected(x: real, y: real)
      modifies this, textureAreas
      ensures old(Valid()) ==> Valid()
      ensures forall a :: a in old(textureAreas) ==>
        a.points == old(a.points) && a.selected == old(a.selected) && a.hovering == old(a.hovering) &&
        a.localTransform == old(a.localTransform)
      ensures old(FirstGrabbed(CornersOf(textureAreas), Point(x, y), 0)) >= 0 ==>
        currentPoints == old(currentPoints) && isDrawing == old(isDrawing) && textureAreas == old(textureAreas) &&
        selectedArea == textureAreas[old(FirstGrabbed(CornersOf(textureAreas), Point(x, y), 0))] &&
        selectedArea.dragging && selectedArea.activePoint.Some? &&
        0 <= selectedArea.activePoint.value < |selectedArea.points| &&
        IsNearPoint(Point(x, y), selectedArea.points[selectedArea.activePoint.value], GrabRadius) &&
        (forall j :: 0 <= j < |selectedArea.points| ==>
           DistSq(Point(x, y), selectedArea.points[selectedArea.activePoint.value]) <= DistSq(Point(x, y), selectedArea.points[j])) &&
        (forall j :: 0 <= j < selectedArea.activePoint.value ==>
           DistSq(Point(x, y), selectedArea.points[selectedArea.activePoint.value]) < DistSq(Point(x, y), selectedArea.points[j])) &&
        forall a :: a in textureAreas && a != selectedArea ==>
          a.dragging == old(a.dragging) && a.activePoint == old(a.activePoint)
      ensures old(FirstGrabbed(CornersOf(textureAreas), Point(x, y), 0)) == -1 ==>
        forall a :: a in old(textureAreas) ==> a.dragging == old(a.dragging) && a.activePoint == old(a.activePoint)
      ensures old(FirstGrabbed(CornersOf(textureAreas), Point(x, y), 0)) == -1 && old(|currentPoints|) < 3 ==>
        currentPoints == old(currentPoints) + [Point(x, y)] && isDrawing &&
        textureAreas == old(textureAreas) && selectedArea == old(selectedArea)
      ensures old(FirstGrabbed(CornersOf(textureAreas), Point(x, y), 0)) == -1 && old(|currentPoints|) == 3 ==>
        currentPoints == [] && isDrawing && selectedArea != null && fresh(selectedArea) &&
        textureAreas == old(textureAreas) + [selectedArea] &&
        selectedArea.points == old(currentPoints) + [Point(x, y)] && selectedArea.AtRest()
      ensures old(FirstGrabbed(CornersOf(textureAreas), Point(x, y), 0)) == -1 && old(|currentPoints|) >= 4 ==>
        currentPoints == old(currentPoints) && isDrawing == old(isDrawing) && textureAreas == old(textureAreas) &&
        selectedArea == old(selectedArea)
    {
      var g, index := FindGrabbed(x, y);
      if g >= 0 {
        Grab(g, index);
      } else if |currentPoints| < 4 {
        AddPoint(x, y);
      }
    }

    /** The search loop of `handleMouseDown`: the areas in list order, each asked for its
        corner nearest the pointer; the first whose nearest corner is within the grab radius
        is the one grabbed (g == -1 when none is), with that corner's index. */
    method FindGrabbed(x: real, y: real) returns (g: int, index: int)
      ensures g == FirstGrabbed(CornersOf(textureAreas), Point(x, y), 0)
      ensures g >= 0 ==> (var corners := textureAreas[g].points;
        0 <= index < |corners| && IsNearPoint(Point(x, y), corners[index], GrabRadius) &&
        (forall j :: 0 <= j < |corners| ==> DistSq(Point(x, y), corners[index]) <= DistSq(Point(x, y), corners[j])) &&
        forall j :: 0 <= j < index ==> DistSq(Point(x, y), corners[index]) < DistSq(Point(x, y), corners[j]))
    {
      ghost var outlines := CornersOf(textureAreas);
      var p := Point(x, y);
      var i := 0;
      while i < |textureAreas|
        invariant 0 <= i <= |textureAreas|
        invariant FirstGrabbed(outlines, p, 0) == FirstGrabbed(outlines, p, i)
      {
        var area := textureAreas[i];
        var nearest, distSq := area.GetNearestPoint(x, y);
        if distSq.Some? && IsNearPoint(p, area.points[nearest], GrabRadius) {
          NearestDecidesGrab(area.points, p, nearest);
          return i, nearest;
        }
        if |area.points| > 0 {
          NearestDecidesGrab(area.points, p, nearest);
        }
        i := i + 1;
      }
      return -1, -1;
    }

    /** `handleMouseMove`: while the selected area is being dragged, the shift key turns on
        its local transform and the active corner follows the pointer. Nothing else changes. */
    method HandleMouseMove(x: real, y: real, shiftKey: bool)
      modifies selectedArea
      ensures selectedArea != null && old(selectedArea.dragging) ==>
        selectedArea.localTransform == (old(selectedArea.localTransform) || shiftKey) &&
        selectedArea.points == (match selectedArea.activePoint
          case None => old(selectedArea.points)
          case Some(k) => if 0 <= k < |old(selectedArea.points)| then old(selectedArea.points)[k := Point(x, y)]
                          else old(selectedArea.points))
      ensures selectedArea != null && !old(selectedArea.dragging) ==>
        selectedArea.points == old(selectedArea.points) && selectedArea.localTransform == old(selectedArea.localTransform)
      ensures selectedArea != null ==>
        selectedArea.dragging == old(selectedArea.dragging) && selectedArea.activePoint == old(selectedArea.activePoint) &&
        selectedArea.selected == old(selectedArea.selected) && selectedArea.hovering == old(selectedArea.hovering)
    {
      if selectedArea != null && selectedArea.dragging {
        if shiftKey {
          selectedArea.localTransform := true;
        }
        if selectedArea.activePoint.Some? {
          selectedArea.MovePoint(selectedArea.activePoint.value, x, y);
        }
      }
    }

    /** `handleMouseUp`: the selected area stops dragging, with no active corner and the local
        transform off; its corners, selection flag and hover flag stay as they are. */
    method HandleMouseUp()
      modifies selectedArea
      ensures selectedArea != null ==>
        !selectedArea.dragging && selectedArea.activePoint == None && !selectedArea.localTransform &&
        selectedArea.points == old(selectedArea.points) && selectedArea.selected == old(selectedArea.selected) &&
        selectedArea.hovering == old(selectedArea.hovering)
    {
      if selectedArea != null {
        selectedArea.dragging := false;
        selectedArea.activePoint := None;
        selectedArea.localTransform := false;
      }
    }

    /** What `duplicateSelectedTexture` does: with a selection, one new area (a copy of the
        selected one, moved by the duplicate offset and at rest) is appended and selected;
        without one, nothing changes. */
    twostate predicate Duplicated()
      reads this, selectedArea
    {
      currentPoints == old(currentPoints) && isDrawing == old(isDrawing) &&
      if old(selectedArea) == null then
        textureAreas == old(textureAreas) && selectedArea == null
      else
        selectedArea != null && fresh(selectedArea) && textureAreas == old(textureAreas) + [selectedArea] &&
        selectedArea.points == Translated(old(selectedArea.points), DuplicateOffset, DuplicateOffset) &&
        selectedArea.AtRest()
    }

    method DuplicateSelectedTexture()
      modifies this
      ensures Duplicated()
      ensures old(Valid()) ==> Valid()
    {
      if selectedArea == null {
        return;
      }
      var newArea := selectedArea.Clone();
      newArea.MoveArea(DuplicateOffset, DuplicateOffset);
      textureAreas := textureAreas + [newArea];
      selectedArea := newArea;
    }

    /** `deleteSelectedTexture`: the area at the position `indexOf` reports for the selection
        is spliced out when that position is not -1, which is the `Deletion` of the selected
        area, and the application stays valid. */
    method DeleteSelectedTexture()
      modifies this
      ensures currentPoints == old(currentPoints) && isDrawing == old(isDrawing)
      ensures var index := if old(selectedArea) == null then -1 else IndexOf(old(textureAreas), old(selectedArea));
        if index > -1 then textureAreas == SpliceOut(old(textureAreas), index) && selectedArea == null
        else textureAreas == old(textureAreas) && selectedArea == old(selectedArea)
      ensures Deletion(old(textureAreas), old(selectedArea), textureAreas, selectedArea)
      ensures old(Valid()) ==> Valid()
    {
      if selectedArea == null {
        return;
      }
      var index := IndexOf(textureAreas, selectedArea);
      if index > -1 {
        RemoveArea(index);
      }
    }

    /** The splice that deletes the area at `index` and drops the selection. */
    method RemoveArea(index: nat)
      requires index < |textureAreas|
      modifies this
      ensures textureAreas == SpliceOut(old(textureAreas), index) && selectedArea == null
      ensures currentPoints == old(currentPoints) && isDrawing == old(isDrawing)
      ensures old(Distinct(textureAreas)) ==> Distinct(textureAreas)
    {
      ghost var areas := textureAreas;
      if Distinct(areas) {
        SpliceOutKeepsDistinct(areas, index);
      }
      textureAreas := SpliceOut(textureAreas, index);
      selectedArea := null;
    }

    /** `handleKeyPress`: without a selection every key is ignored; 'd' duplicates and Delete
        deletes the selected area; 'c' (copy to the clipboard) and the arrow keys (a rotated
        preview) change no state of the application. */
    method HandleKeyPress(key: Key)
      modifies this
      ensures old(selectedArea) == null ==> unchanged(this)
      ensures key == KeyD ==> Duplicated()
      ensures key == KeyDelete ==>
        Deletion(old(textureAreas), old(selectedArea), textureAreas, selectedArea) &&
        currentPoints == old(currentPoints) && isDrawing == old(isDrawing)
      ensures key != KeyD && key != KeyDelete ==> unchanged(this)
      ensures old(Valid()) ==> Valid()
    {
      if selectedArea == null {
        return;
      }
      match key {
        case KeyD => DuplicateSelectedTexture();
        case KeyDelete => DeleteSelectedTexture();
        case _ =>
      }
    }
  }

  /** The corners of the example area: the square from (0, 0) to (10, 10). */
  function ExampleSquare(): (corners: seq<Point>)
    ensures |corners| == 4 && corners[0] == Point(0.0, 0.0)
  {
    [Point(0.0, 0.0), Point(10.0, 0.0), Point(10.0, 10.0), Point(0.0, 10.0)]
  }

  /** As written, the grab branch of `handleMouseDown` is unreachable: the application
      starts and stays `Valid`, so fewer than four corners are always pending and every
      click is collected. Here four clicks close the square, and a fifth click exactly on
      its first corner adds a pending point instead of grabbing that corner. */
  method CornerClickAsWritten() returns (pending: nat, grabbed: bool)
    ensures pending == 1 && !grabbed
  {
    var app := new TextureRipper();
    var square := ExampleSquare();
    app.HandleMouseDown(square[0].x, square[0].y);
    app.HandleMouseDown(square[1].x, square[1].y);
    app.HandleMouseDown(square[2].x, square[2].y);
    app.HandleMouseDown(square[3].x, square[3].y);
    var area := app.textureAreas[0];
    app.HandleMouseDown(0.0, 0.0);
    pending := |app.currentPoints|;
    grabbed := area.dragging;
  }

  /** The same clicks with the corrected handler: the fifth click grabs the square's first
      corner and leaves nothing pending. */
  method CornerClickCorrected() returns (pending: nat, grabbed: bool, corner: int)
    ensures pending == 0 && grabbed && corner == 0
  {
    var app := new TextureRipper();
    var square := ExampleSquare();
    app.HandleMouseDownCorrected(square[0].x, square[0].y);
    app.HandleMouseDownCorrected(square[1].x, square[1].y);
    app.HandleMouseDownCorrected(square[2].x, square[2].y);
    app.HandleMouseDownCorrected(square[3].x, square[3].y);
    var area := app.textureAreas[0];
    assert Grabs(CornersOf(app.textureAreas)[0], Point(0.0, 0.0)) by {
      assert IsNearPoint(Point(0.0, 0.0), area.points[0], GrabRadius);
    }
    app.HandleMouseDownCorrected(0.0, 0.0);
    pending := |app.currentPoints|;
    grabbed := area.dragging;
    corner := if area.activePoint.Some? then area.activePoint.value else -1;
  }
}
