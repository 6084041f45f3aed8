/** The list of image style presets and the three lookups over it
    (`src/config/style-presets.ts`). */
module StylePresets {
  import opened Wrappers
  import opened Tables

  datatype Dimensions = Dimensions(width: nat, height: nat)

  /** A preset. Its nested `styles` record is not modelled: no lookup
      reads it. */
  datatype StylePreset = StylePreset(
    id: string, name: string, description: string,
    archived: bool, createdAt: string, dimensions: Dimensions)

  const DailyAnchor1 := StylePreset(
    "daily-anchor-1", "Daily Anchor 1",
    "Original \"Today's Anchor\" design with gradient border and golden dividers",
    true, "2025-08-26", Dimensions(1080, 1350))

  const DailyAnchor2 := StylePreset(
    "daily-anchor-2", "Daily Anchor 2",
    "Gold border variation of Daily Anchor design",
    false, "2025-08-26", Dimensions(1080, 1350))

  /** `stylePresets`, in declaration order. */
  const Presets: seq<StylePreset> := [DailyAnchor1, DailyAnchor2]

  function HasId(id: string): StylePreset -> bool {
    (p: StylePreset) => p.id == id
  }

  function IsArchived(p: StylePreset): bool {
    p.archived
  }

  /** `find` by id: the first preset of the list with that id, or none. */
  function PresetById(presets: seq<StylePreset>, id: string): (r: Option<StylePreset>)
    ensures r.None? <==> forall i :: 0 <= i < |presets| ==> presets[i].id != id
    ensures r.Some? ==> r.value.id == id
    ensures r.Some? ==>
      exists i :: 0 <= i < |presets| && presets[i] == r.value && forall j :: 0 <= j < i ==> presets[j].id != id
  {
    var r := Find(presets, HasId(id));
    assert forall i :: 0 <= i < |presets| ==> (HasId(id)(presets[i]) <==> presets[i].id == id);
    r
  }

  /** `filter(preset => !preset.archived)`: the active presets, in list
      order. */
  function Active(presets: seq<StylePreset>): (r: seq<StylePreset>)
    ensures forall i :: 0 <= i < |r| ==> r[i] in presets && !r[i].archived
    ensures forall i :: 0 <= i < |presets| && !presets[i].archived ==> presets[i] in r
    ensures Subsequence(r, presets)
  {
    var r := Filter(presets, Not(IsArchived));
    FilterMembers(presets, Not(IsArchived));
    FilterSubsequence(presets, Not(IsArchived));
    assert forall p :: Not(IsArchived)(p) <==> !p.archived;
    r
  }

  /** `filter(preset => preset.archived)`: the archived presets, in list
      order. */
  function Archived(presets: seq<StylePreset>): (r: seq<StylePreset>)
    ensures forall i :: 0 <= i < |r| ==> r[i] in presets && r[i].archived
    ensures forall i :: 0 <= i < |presets| && presets[i].archived ==> presets[i] in r
    ensures Subsequence(r, presets)
  {
    var r := Filter(presets, IsArchived);
    FilterMembers(presets, IsArchived);
    FilterSubsequence(presets, IsArchived);
    assert forall p :: IsArchived(p) <==> p.archived;
    r
  }

  /** `getStylePreset`. */
  function GetStylePreset(id: string): Option<StylePreset> {
    PresetById(Presets, id)
  }

  /** `getActiveStylePresets`. */
  function GetActiveStylePresets(): seq<StylePreset> {
    Active(Presets)
  }

  /** `getArchivedStylePresets`. */
  function GetArchivedStylePresets(): seq<StylePreset> {
    Archived(Presets)
  }

  /** Every preset is either active or archived, never both: the two
      lists share no preset and their lengths add up to the whole list. */
  lemma ActiveArchivedPartition(presets: seq<StylePreset>)
    ensures |Active(presets)| + |Archived(presets)| == |presets|
    ensures forall i :: 0 <= i < |Archived(presets)| ==> Archived(presets)[i] !in Active(presets)
  {
    FilterPartition(presets, IsArchived);
  }

  /** What the three lookups give on the shipped list: the first preset is
      archived and the second is the one active preset. */
  lemma ShippedPresets()
    ensures GetStylePreset("daily-anchor-1") == Some(DailyAnchor1)
    ensures GetStylePreset("daily-anchor-2") == Some(DailyAnchor2)
    ensures GetStylePreset("style1").None?
    ensures GetActiveStylePresets() == [DailyAnchor2]
    ensures GetArchivedStylePresets() == [DailyAnchor1]
  {
    assert Presets[1..] == [DailyAnchor2];
    assert Presets[1..][1..] == [];
    assert DailyAnchor1.id[13] != DailyAnchor2.id[13];
    assert Filter(Presets[1..], IsArchived) == [];
    assert Filter(Presets, IsArchived) == [DailyAnchor1];
  }
}
