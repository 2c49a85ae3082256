/**
 * Scene selection in the results list: clicking a scene flips its `selected`
 * flag, and the selection handed on is every selected scene of the updated
 * list, in list order (not in the order they were clicked).
 */
module AnalysisResults {
  import opened Wrappers
  import opened Media
  import Sequences

  /** The list after clicking scene `index`: only that scene's flag changes, to `!selected`. */
  function Toggle(scenes: seq<Scene>, index: int): (r: seq<Scene>)
    ensures |r| == |scenes|
    ensures forall i :: 0 <= i < |r| && i != index ==> r[i] == scenes[i]
    ensures 0 <= index < |scenes| ==>
      && IsSelected(r[index]) == !IsSelected(scenes[index])
      && r[index].timestamp == scenes[index].timestamp
      && r[index].description == scenes[index].description
      && r[index].frameUrl == scenes[index].frameUrl
  {
    seq(|scenes|, i requires 0 <= i < |scenes| =>
      if i == index then scenes[i].(selected := Some(!IsSelected(scenes[i]))) else scenes[i])
  }

  /** The selection reported to the parent: the selected scenes, in list order. */
  function SelectedScenes(scenes: seq<Scene>): seq<Scene>
  {
    Sequences.Filter(scenes, IsSelected)
  }

  /** A click: the new list and the selection reported with it. */
  function ToggleSceneSelection(scenes: seq<Scene>, index: int): (r: (seq<Scene>, seq<Scene>))
    ensures r.0 == Toggle(scenes, index)
    ensures Sequences.Embeds(r.1, r.0, Sequences.FilterIndices(r.0, IsSelected))
    ensures forall j :: 0 <= j < |r.0| ==> (IsSelected(r.0[j]) <==> j in Sequences.FilterIndices(r.0, IsSelected))
  {
    var updated := Toggle(scenes, index);
    Sequences.FilterEmbeds(updated, IsSelected);
    (updated, SelectedScenes(updated))
  }

  /** An index outside the list changes nothing. */
  lemma ToggleOutOfRange(scenes: seq<Scene>, index: int)
    requires !(0 <= index < |scenes|)
    ensures Toggle(scenes, index) == scenes
  {
  }

  /**
   * Clicking the same scene twice restores its selection state; the list
   * itself is restored unless the flag started out `undefined`, which becomes
   * `false`.
   */
  lemma ToggleTwice(scenes: seq<Scene>, index: int)
    ensures var t := Toggle(Toggle(scenes, index), index);
      && |t| == |scenes|
      && (forall i :: 0 <= i < |t| ==> IsSelected(t[i]) == IsSelected(scenes[i]))
      && (0 <= index < |scenes| && scenes[index].selected.Some? ==> t == scenes)
  {
    var t := Toggle(Toggle(scenes, index), index);
    if 0 <= index < |scenes| && scenes[index].selected.Some? {
      var once := Toggle(scenes, index);
      assert once[index] == scenes[index].(selected := Some(!IsSelected(scenes[index])));
      assert t[index] == once[index].(selected := Some(!IsSelected(once[index])));
      assert IsSelected(once[index]) == !IsSelected(scenes[index]);
      assert IsSelected(scenes[index]) == scenes[index].selected.value;
      assert t[index] == scenes[index];
    }
  }

  /**
   * The reported selection is exactly the selected scenes of the updated
   * list, at increasing positions, so in list order.
   */
  lemma SelectionInListOrder(scenes: seq<Scene>, index: int)
    ensures var updated := Toggle(scenes, index);
      var selection := SelectedScenes(updated);
      && Sequences.Embeds(selection, updated, Sequences.FilterIndices(updated, IsSelected))
      && (forall j :: 0 <= j < |updated| ==>
            (IsSelected(updated[j]) <==> j in Sequences.FilterIndices(updated, IsSelected)))
  {
    Sequences.FilterEmbeds(Toggle(scenes, index), IsSelected);
  }

  /** Each click on a scene in the list grows or shrinks the selection by exactly one. */
  lemma SelectionCountStep(scenes: seq<Scene>, index: int)
    requires 0 <= index < |scenes|
    ensures IsSelected(scenes[index]) ==>
      |SelectedScenes(Toggle(scenes, index))| + 1 == |SelectedScenes(scenes)|
    ensures !IsSelected(scenes[index]) ==>
      |SelectedScenes(Toggle(scenes, index))| == |SelectedScenes(scenes)| + 1
  {
    var t := Toggle(scenes, index);
    assert t == scenes[index := t[index]];
    Sequences.FilterUpdateCount(scenes, index, t[index], IsSelected);
  }
}
