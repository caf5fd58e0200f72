/** The colour configuration's actions. Each one maps the previous
    configuration to the next; the held configuration is then replaced. */
module ConfigReducers {
  import opened Common
  import opened ColorTypes

  /** The index of the first scheme with the id. */
  function FindScheme(schemes: seq<ColorScheme>, id: string): (r: Option<nat>)
    ensures r.Some? ==> r.value < |schemes| && schemes[r.value].id == id
    ensures r.Some? ==> forall k | 0 <= k < r.value :: schemes[k].id != id
    ensures r.None? ==> forall s | s in schemes :: s.id != id
  {
    if schemes == [] then None
    else if schemes[0].id == id then Some(0)
    else match FindScheme(schemes[1..], id)
      case None => None
      case Some(k) => Some(k + 1)
  }

  /** `updateActiveScheme`: only the active id changes. */
  function UpdateActiveScheme(c: ColorConfig, schemeId: string): (r: ColorConfig)
    ensures r.activeSchemeId == schemeId
    ensures r.schemes == c.schemes && r.conditionField == c.conditionField
  {
    c.(activeSchemeId := schemeId)
  }

  /** `updateConditionField`: only the condition field changes. */
  function UpdateConditionField(c: ColorConfig, field: ConditionField): (r: ColorConfig)
    ensures r.conditionField == field
    ensures r.schemes == c.schemes && r.activeSchemeId == c.activeSchemeId
  {
    c.(conditionField := field)
  }

  /** `addScheme`: the scheme goes at the end, whatever its id. */
  function AddScheme(c: ColorConfig, scheme: ColorScheme): (r: ColorConfig)
    ensures |r.schemes| == |c.schemes| + 1 && r.schemes[..|c.schemes|] == c.schemes
    ensures r.schemes[|c.schemes|] == scheme
    ensures r.activeSchemeId == c.activeSchemeId && r.conditionField == c.conditionField
  {
    c.(schemes := c.schemes + [scheme])
  }

  /** `updateScheme`: every scheme with the id is replaced; the others stay
      where they are. */
  function UpdateScheme(c: ColorConfig, schemeId: string, updated: ColorScheme): (r: ColorConfig)
    ensures |r.schemes| == |c.schemes|
    ensures forall i | 0 <= i < |c.schemes| && c.schemes[i].id == schemeId :: r.schemes[i] == updated
    ensures forall i | 0 <= i < |c.schemes| && c.schemes[i].id != schemeId :: r.schemes[i] == c.schemes[i]
    ensures r.activeSchemeId == c.activeSchemeId && r.conditionField == c.conditionField
  {
    var schemes := seq(|c.schemes|, i requires 0 <= i < |c.schemes| =>
      if c.schemes[i].id == schemeId then updated else c.schemes[i]);
    c.(schemes := schemes)
  }

  /** The id a deletion leaves active: the old one unless it was deleted,
      else the first remaining scheme's id, or the default id when none
      remains or that id is empty. */
  function ActiveAfterDelete(active: string, schemeId: string, remaining: seq<ColorScheme>): string
  {
    if active != schemeId then active
    else if remaining != [] && remaining[0].id != "" then remaining[0].id
    else DefaultActiveSchemeId
  }

  /** `deleteScheme`: drops every scheme with the id, in order, and moves
      the active id off a deleted scheme. */
  function DeleteScheme(c: ColorConfig, schemeId: string): (r: ColorConfig)
    ensures forall s :: s in r.schemes <==> s in c.schemes && s.id != schemeId
    ensures r.schemes == Filter(c.schemes, (s: ColorScheme) => s.id != schemeId)
    ensures r.activeSchemeId == ActiveAfterDelete(c.activeSchemeId, schemeId, r.schemes)
    ensures r.conditionField == c.conditionField
  {
    var remaining := Filter(c.schemes, (s: ColorScheme) => s.id != schemeId);
    c.(schemes := remaining, activeSchemeId := ActiveAfterDelete(c.activeSchemeId, schemeId, remaining))
  }

  /** `getActiveScheme`: the first scheme carrying the active id. */
  function GetActiveScheme(c: ColorConfig): (r: Option<ColorScheme>)
    ensures r.Some? ==> r.value in c.schemes && r.value.id == c.activeSchemeId
    ensures r.None? <==> forall s | s in c.schemes :: s.id != c.activeSchemeId
  {
    match FindScheme(c.schemes, c.activeSchemeId)
    case None => None
    case Some(i) => Some(c.schemes[i])
  }

  /** `resetToDefault`. */
  function ResetToDefault(c: ColorConfig): (r: ColorConfig)
    ensures GetActiveScheme(r) == Some(DefaultGreen)
    ensures r.conditionField == EksConditionEstimate && r.schemes == DefaultColorSchemes
  {
    assert FindScheme(DefaultColorSchemes, DefaultActiveSchemeId) == Some(0);
    DefaultColorConfig
  }

  // ---------------------------------------------------------------------------
  // Properties

  /** Selecting a scheme that is present makes the first scheme with that id
      the active one. */
  lemma SelectThenGet(c: ColorConfig, i: nat)
    requires i < |c.schemes|
    requires forall k | 0 <= k < i :: c.schemes[k].id != c.schemes[i].id
    ensures GetActiveScheme(UpdateActiveScheme(c, c.schemes[i].id)) == Some(c.schemes[i])
  {
    FindSchemeAt(c.schemes, c.schemes[i].id, i);
  }

  lemma {:induction false} FindSchemeAt(schemes: seq<ColorScheme>, id: string, i: nat)
    requires i < |schemes| && schemes[i].id == id
    requires forall k | 0 <= k < i :: schemes[k].id != id
    ensures FindScheme(schemes, id) == Some(i)
  {
    if i > 0 {
      FindSchemeAt(schemes[1..], id, i - 1);
    }
  }

  /** Adding a scheme never changes the scheme already active; it becomes the
      active one only when its id is active and no earlier scheme has it. */
  lemma {:induction false} AddKeepsActive(c: ColorConfig, scheme: ColorScheme)
    ensures GetActiveScheme(c).Some? ==> GetActiveScheme(AddScheme(c, scheme)) == GetActiveScheme(c)
    ensures GetActiveScheme(c).None? ==>
      GetActiveScheme(AddScheme(c, scheme)) == (if scheme.id == c.activeSchemeId then Some(scheme) else None)
  {
    var r := AddScheme(c, scheme);
    match FindScheme(c.schemes, c.activeSchemeId)
    case Some(i) =>
      assert r.schemes[i] == c.schemes[i];
      FindSchemeAt(r.schemes, c.activeSchemeId, i);
    case None =>
      if scheme.id == c.activeSchemeId {
        FindSchemeAt(r.schemes, c.activeSchemeId, |c.schemes|);
      } else {
        assert forall s | s in r.schemes :: s in c.schemes || s == scheme;
      }
  }

  /** Updating the active scheme under its own id makes the update the
      active scheme. */
  lemma UpdateActiveSchemeSeen(c: ColorConfig, updated: ColorScheme)
    requires GetActiveScheme(c).Some? && updated.id == c.activeSchemeId
    ensures GetActiveScheme(UpdateScheme(c, c.activeSchemeId, updated)) == Some(updated)
  {
    var r := UpdateScheme(c, c.activeSchemeId, updated);
    var i := FindScheme(c.schemes, c.activeSchemeId).value;
    FindSchemeAt(r.schemes, c.activeSchemeId, i);
  }

  /** An update that keeps the id leaves the list of ids as it was. */
  lemma UpdateKeepsIds(c: ColorConfig, schemeId: string, updated: ColorScheme)
    requires updated.id == schemeId
    ensures SchemeIds(UpdateScheme(c, schemeId, updated).schemes) == SchemeIds(c.schemes)
  {
  }

  /** An update under an id no scheme has changes nothing. */
  lemma UpdateAbsentId(c: ColorConfig, schemeId: string, updated: ColorScheme)
    requires forall s | s in c.schemes :: s.id != schemeId
    ensures UpdateScheme(c, schemeId, updated) == c
  {
    assert UpdateScheme(c, schemeId, updated).schemes == c.schemes;
  }

  /** After a deletion no scheme has the id, and the id is active only when
      it is the default id. */
  lemma DeleteRemovesAll(c: ColorConfig, schemeId: string)
    ensures forall s | s in DeleteScheme(c, schemeId).schemes :: s.id != schemeId
    ensures DeleteScheme(c, schemeId).activeSchemeId != schemeId || schemeId == DefaultActiveSchemeId
  {
  }

  /** Deleting another scheme keeps the active scheme. */
  lemma {:induction false} DeleteOtherKeepsActive(c: ColorConfig, schemeId: string)
    requires c.activeSchemeId != schemeId
    ensures GetActiveScheme(DeleteScheme(c, schemeId)) == GetActiveScheme(c)
  {
    var keep := (s: ColorScheme) => s.id != schemeId;
    var r := DeleteScheme(c, schemeId);
    match FindScheme(c.schemes, c.activeSchemeId)
    case None =>
    case Some(i) =>
      FilterSplit(c.schemes, i, keep);
      var prefix := Filter(c.schemes[..i], keep);
      assert forall s | s in prefix :: s.id != c.activeSchemeId by {
        forall s | s in prefix ensures s.id != c.activeSchemeId {
          assert s in c.schemes[..i];
        }
      }
      assert r.schemes[|prefix|] == c.schemes[i];
      forall k | 0 <= k < |prefix| ensures r.schemes[k].id != c.activeSchemeId {
        assert r.schemes[k] == prefix[k];
        assert prefix[k] in prefix;
      }
      FindSchemeAt(r.schemes, c.activeSchemeId, |prefix|);
  }

  /** Filtering splits at a kept element. */
  lemma {:induction false} FilterSplit(s: seq<ColorScheme>, i: nat, p: ColorScheme -> bool)
    requires i < |s| && p(s[i])
    ensures Filter(s, p) == Filter(s[..i], p) + [s[i]] + Filter(s[i + 1..], p)
  {
    var a, b := s[..i] + [s[i]], s[i + 1..];
    assert s == a + b;
    FilterAppend(a, b, p);
    FilterAppend(s[..i], [s[i]], p);
    assert Filter([s[i]], p) == [s[i]] by {
      assert [s[i]][1..] == [];
    }
  }

  /** Deleting the active scheme makes the first remaining scheme active when
      its id is not empty. */
  lemma DeleteActiveMovesToFirst(c: ColorConfig)
    requires GetActiveScheme(c).Some?
    ensures var r := DeleteScheme(c, c.activeSchemeId);
      (r.schemes != [] && r.schemes[0].id != "" ==> GetActiveScheme(r) == Some(r.schemes[0])) &&
      (r.schemes == [] ==> r.activeSchemeId == DefaultActiveSchemeId && GetActiveScheme(r).None?)
  {
    var r := DeleteScheme(c, c.activeSchemeId);
    if r.schemes != [] && r.schemes[0].id != "" {
      FindSchemeAt(r.schemes, r.schemes[0].id, 0);
    }
  }

  /** Resetting forgets every earlier action. */
  lemma ResetForgets(c: ColorConfig, d: ColorConfig)
    ensures ResetToDefault(c) == ResetToDefault(d) == DefaultColorConfig
  {
  }
}
