/** The colour scheme editor: editing the list of ranges, the guarded save,
    and how a saved scheme reaches the configuration. */
module SchemeEditor {
  import opened Common
  import opened ColorTypes
  import opened ColorUtils
  import opened ConfigReducers

  /** The range `addRange` appends. */
  const AddedRange := ColorRange(0.0, 1.0, "#000000")

  /** `addRange`: a full-width black range at the end. */
  function AddRange(s: ColorScheme): (r: ColorScheme)
    ensures r == s.(ranges := s.ranges + [AddedRange])
  {
    s.(ranges := s.ranges + [AddedRange])
  }

  /** One edit of a range field, as the inputs deliver it. */
  datatype RangeEdit = SetMin(min: real) | SetMax(max: real) | SetColor(color: string)

  function Edited(r: ColorRange, e: RangeEdit): ColorRange
  {
    match e
    case SetMin(v) => r.(min := v)
    case SetMax(v) => r.(max := v)
    case SetColor(c) => r.(color := c)
  }

  /** `updateRange`: the edit applies to the range at the index and to no
      other; an index outside the list changes nothing. */
  function UpdateRange(s: ColorScheme, index: int, e: RangeEdit): (r: ColorScheme)
    ensures r.id == s.id && r.name == s.name && r.kind == s.kind && r.description == s.description
    ensures |r.ranges| == |s.ranges|
    ensures forall i | 0 <= i < |s.ranges| && i != index :: r.ranges[i] == s.ranges[i]
    ensures 0 <= index < |s.ranges| ==> r.ranges[index] == Edited(s.ranges[index], e)
  {
    s.(ranges := seq(|s.ranges|, i requires 0 <= i < |s.ranges| =>
      if i == index then Edited(s.ranges[i], e) else s.ranges[i]))
  }

  /** The minimum input: `parseFloat(text) || 0`. */
  function MinEdit(text: string, parseFloat: string -> JsNum): (e: RangeEdit)
    ensures e.SetMin? && (parseFloat(text).Finite? ==> e.min == parseFloat(text).r)
    ensures parseFloat(text) == NaN ==> e.min == 0.0
  {
    SetMin(OrNonZero(OrDefault(parseFloat(text), 0.0), 0.0))
  }

  /** The maximum input: `parseFloat(text) || 1`, so a typed 0 becomes 1. */
  function MaxEdit(text: string, parseFloat: string -> JsNum): (e: RangeEdit)
    ensures e.SetMax? && e.max != 0.0
    ensures parseFloat(text).Finite? && parseFloat(text).r != 0.0 ==> e.max == parseFloat(text).r
    ensures parseFloat(text) == NaN || parseFloat(text) == Finite(0.0) ==> e.max == 1.0
  {
    SetMax(OrNonZero(OrDefault(parseFloat(text), 0.0), 1.0))
  }

  /** `removeRange`: drops the range at the index when there are at least
      two ranges; with one range it does nothing. */
  function RemoveRange(s: ColorScheme, index: int): (r: ColorScheme)
    ensures r.id == s.id && r.name == s.name && r.kind == s.kind && r.description == s.description
    ensures s.ranges != [] ==> r.ranges != []
    ensures |s.ranges| > 1 && 0 <= index < |s.ranges| ==>
      |r.ranges| == |s.ranges| - 1 && multiset(r.ranges) + multiset{s.ranges[index]} == multiset(s.ranges)
    ensures |s.ranges| > 1 && 0 <= index < |s.ranges| ==> r.ranges == s.ranges[..index] + s.ranges[index + 1..]
    ensures |s.ranges| <= 1 || index < 0 || index >= |s.ranges| ==> r == s
  {
    if |s.ranges| > 1 && 0 <= index < |s.ranges| then
      var kept := seq(|s.ranges| - 1, i requires 0 <= i < |s.ranges| - 1 =>
        if index <= i then s.ranges[i + 1] else s.ranges[i]);
      assert kept == s.ranges[..index] + s.ranges[index + 1..];
      assert s.ranges == s.ranges[..index] + [s.ranges[index]] + s.ranges[index + 1..];
      s.(ranges := kept)
    else s
  }

  /** Removing the range just added restores the scheme, unless the scheme
      had no range, in which case the new one cannot be removed. */
  lemma AddThenRemove(s: ColorScheme)
    ensures s.ranges != [] ==> RemoveRange(AddRange(s), |s.ranges|) == s
    ensures s.ranges == [] ==> RemoveRange(AddRange(s), 0) == AddRange(s)
  {
    if s.ranges != [] {
      assert RemoveRange(AddRange(s), |s.ranges|).ranges == s.ranges;
    }
  }

  /** A second edit of the same field of the same range overrides the first. */
  lemma UpdateRangeLastWins(s: ColorScheme, index: int, e1: RangeEdit, e2: RangeEdit)
    requires e1.SetMin? == e2.SetMin? && e1.SetMax? == e2.SetMax?
    ensures UpdateRange(UpdateRange(s, index, e1), index, e2) == UpdateRange(s, index, e2)
  {
    assert UpdateRange(UpdateRange(s, index, e1), index, e2).ranges == UpdateRange(s, index, e2).ranges;
  }

  /** Edits to the colours leave the bounds, so a scheme's overlap check and
      unit checks see the same numbers. */
  lemma ColorEditKeepsBounds(s: ColorScheme, index: int, c: string)
    ensures var r := UpdateRange(s, index, SetColor(c));
      forall i | 0 <= i < |s.ranges| :: r.ranges[i].min == s.ranges[i].min && r.ranges[i].max == s.ranges[i].max
  {
  }

  /** `handleSave`: hands the edited scheme on only when it validates. */
  function HandleSave(edited: ColorScheme, validColor: string -> bool): (r: Option<ColorScheme>)
    ensures r.Some? <==> SchemeErrors(edited, validColor) == []
    ensures r.Some? ==> r.value == edited
  {
    if |SchemeErrors(edited, validColor)| == 0 then Some(edited) else None
  }

  /** A scheme that is handed on has a name and at least one range, every
      range lies in [0, 1] with its minimum below its maximum and has an
      accepted colour, and the ranges sorted by minimum do not overlap. */
  lemma SavedSchemeValid(edited: ColorScheme, validColor: string -> bool)
    requires HandleSave(edited, validColor).Some?
    ensures !Blank(edited.name) && edited.ranges != []
    ensures forall r | r in edited.ranges :: WellFormed(r) && validColor(r.color)
    ensures !Overlapping(SortBy(edited.ranges, ByMin))
  {
    SchemeValidIff(edited, validColor);
  }

  /** The editor's state in the configuration dialog. */
  datatype Dialog = Dialog(editing: Option<ColorScheme>, isCreatingNew: bool)

  /** The scheme a new scheme starts from: unnamed, continuous, red on the
      lower half and green on the upper. */
  const NewSchemeTemplate := ColorScheme("", "", Continuous,
    [ColorRange(0.0, 0.5, "#ff0000"), ColorRange(0.5, 1.0, "#00ff00")], None)

  /** "Create new" opens the editor on the template. */
  function CreateNew(d: Dialog): (r: Dialog)
    ensures r.editing == Some(NewSchemeTemplate) && r.isCreatingNew
  {
    Dialog(Some(NewSchemeTemplate), true)
  }

  /** The id a new scheme receives from the clock. */
  function FreshId(now: int): string
  {
    "scheme-" + DecimalString(now)
  }

  /** The save dispatch: a new scheme is added under a clock-made id, an
      edited one replaces the schemes with its original id; either way the
      editor closes. */
  function OnSave(c: ColorConfig, d: Dialog, updated: ColorScheme, now: int): (r: (ColorConfig, Dialog))
    requires d.editing.Some?
    ensures r.1 == Dialog(None, false)
    ensures d.isCreatingNew ==> r.0 == AddScheme(c, updated.(id := FreshId(now)))
    ensures !d.isCreatingNew ==> r.0 == UpdateScheme(c, d.editing.value.id, updated)
  {
    var next := if d.isCreatingNew then AddScheme(c, updated.(id := FreshId(now)))
      else UpdateScheme(c, d.editing.value.id, updated);
    (next, Dialog(None, false))
  }

  /** Cancelling closes the editor without touching the configuration. */
  function OnCancel(d: Dialog): (r: Dialog)
    ensures r.editing.None? && !r.isCreatingNew
  {
    Dialog(None, false)
  }

  /** The template is refused only for its missing name. */
  lemma TemplateNeedsName(validColor: string -> bool)
    requires validColor("#ff0000") && validColor("#00ff00")
    ensures SchemeErrors(NewSchemeTemplate, validColor) == [NameRequired]
  {
    TemplateTiles();
    TiledUnnamedErrors(NewSchemeTemplate, validColor);
  }

  lemma TemplateTiles()
    ensures TilesUnit(NewSchemeTemplate.ranges)
  {
  }

  /** Given a name and accepted colours, the template validates. */
  lemma NamedTemplateValid(name: string, validColor: string -> bool)
    requires !Blank(name) && validColor("#ff0000") && validColor("#00ff00")
    ensures HandleSave(NewSchemeTemplate.(name := name), validColor) == Some(NewSchemeTemplate.(name := name))
  {
    TemplateTiles();
    TiledSchemeValid(NewSchemeTemplate.(name := name), validColor);
  }

  /** Saving an edit of the active scheme makes the saved version the active
      scheme, since the editor never changes a scheme's id. */
  lemma SaveEditedActive(c: ColorConfig, d: Dialog, updated: ColorScheme, now: int)
    requires d.editing.Some? && !d.isCreatingNew
    requires d.editing.value.id == c.activeSchemeId && updated.id == c.activeSchemeId
    requires GetActiveScheme(c).Some?
    ensures GetActiveScheme(OnSave(c, d, updated, now).0) == Some(updated)
  {
    UpdateActiveSchemeSeen(c, updated);
  }

  /** Saving a new scheme appends it under the fresh id and keeps the active
      scheme, unless no scheme was active and the fresh id is the active id. */
  lemma SaveNewAppends(c: ColorConfig, d: Dialog, updated: ColorScheme, now: int)
    requires d.editing.Some? && d.isCreatingNew
    requires FreshId(now) != c.activeSchemeId
    ensures var r := OnSave(c, d, updated, now).0;
      r.schemes == c.schemes + [updated.(id := FreshId(now))] && GetActiveScheme(r) == GetActiveScheme(c)
  {
    AddKeepsActive(c, updated.(id := FreshId(now)));
    var r := OnSave(c, d, updated, now).0;
    assert r.schemes == c.schemes + [updated.(id := FreshId(now))];
  }
}
