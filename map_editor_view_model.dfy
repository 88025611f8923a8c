/**
 * `MapEditorViewModel`: the editor's page list (notes and spaces), the
 * editor-mode switch, the note edits, and the id counters of `Note.create`
 * and `SpaceNode.create`. Random UUIDs come from the caller: each place
 * that draws one takes the value it draws as a parameter.
 */
module EditorViewModel {

  // ---------------------------------------------------------------------
  // Kotlin Int
  // ---------------------------------------------------------------------

  const INT_MIN: int := -0x8000_0000
  const INT_MAX: int := 0x7fff_ffff

  predicate IsInt(n: int)
  {
    INT_MIN <= n <= INT_MAX
  }

  /** `n + 1` on a 32-bit `Int`, which wraps from the largest value to the
      smallest. */
  function IntInc(n: int): (r: int)
    requires IsInt(n)
    ensures IsInt(r)
    ensures n < INT_MAX ==> r == n + 1 && r > n
    ensures n == INT_MAX ==> r == INT_MIN
  {
    (n - INT_MIN + 1) % 0x1_0000_0000 + INT_MIN
  }

  /** The counter after `n` creations from its initial value 0. */
  function CounterAfter(n: nat): (r: int)
    ensures IsInt(r)
  {
    if n == 0 then 0 else IntInc(CounterAfter(n - 1))
  }

  /** The first 2^31 creations hand out 0, 1, 2, ... in order. */
  lemma {:induction false} CounterCountsUp(n: nat)
    requires n <= INT_MAX
    ensures CounterAfter(n) == n
  {
    if n > 0 {
      CounterCountsUp(n - 1);
    }
  }

  /** The next creation wraps the counter round to the smallest `Int`, so
      ids stop increasing after 2^31 creations. */
  lemma CounterWraps()
    ensures CounterAfter(INT_MAX + 1) == INT_MIN
  {
    CounterCountsUp(INT_MAX);
  }

  // ---------------------------------------------------------------------
  // Page items
  // ---------------------------------------------------------------------

  /** A `java.util.UUID`. */
  datatype Uuid = Uuid(bits: nat)

  /** A Compose `Offset`: two floats packed into one 64-bit value, kept
      opaque here. */
  datatype Offset = Offset(packedValue: int)

  /** `Offset.Zero`: both coordinates 0. */
  const ZERO_OFFSET: Offset := Offset(0)

  /** A node of a space page. */
  datatype SpaceNode = SpaceNode(id: int, uuid: Uuid, offset: Offset, hasBorder: bool, text: string)

  /** A page of the editor. Both kinds carry the `uuid` the `MapItem` base
      class draws when an item is made, `copy` included. */
  datatype MapItem =
    | Note(uuid: Uuid, id: int, titleText: string, contentText: string)
    | Space(uuid: Uuid, nodeInfo: seq<SpaceNode>)

  /** The field a note edit sets. */
  datatype NoteEdit = NewTitle(title: string) | NewContent(content: string)

  /** `item.copy(titleText = ..)` or `item.copy(contentText = ..)` on the
      note with the given uuid; `freshUuid` is the uuid the copy draws. */
  function EditItem(item: MapItem, noteUuid: Uuid, edit: NoteEdit, freshUuid: Uuid): (r: MapItem)
    ensures !(item.Note? && item.uuid == noteUuid) ==> r == item
    ensures item.Note? && item.uuid == noteUuid ==>
      && r.Note? && r.uuid == freshUuid && r.id == item.id
      && (edit.NewTitle? ==> r.titleText == edit.title && r.contentText == item.contentText)
      && (edit.NewContent? ==> r.contentText == edit.content && r.titleText == item.titleText)
  {
    if item.Note? && item.uuid == noteUuid then
      match edit
      case NewTitle(t) => Note(freshUuid, item.id, t, item.contentText)
      case NewContent(c) => Note(freshUuid, item.id, item.titleText, c)
    else item
  }

  /** The `map` of `changeNoteTitle` / `changeNoteContent`; `draws(i)` is the
      uuid drawn when the item at position i is copied. */
  function EditNotes(items: seq<MapItem>, noteUuid: Uuid, edit: NoteEdit, draws: nat -> Uuid): (r: seq<MapItem>)
    ensures |r| == |items|
    ensures forall i :: 0 <= i < |items| && !(items[i].Note? && items[i].uuid == noteUuid) ==> r[i] == items[i]
    ensures forall i :: 0 <= i < |items| && items[i].Note? && items[i].uuid == noteUuid ==>
      && r[i].Note? && r[i].uuid == draws(i) && r[i].id == items[i].id
      && (edit.NewTitle? ==> r[i].titleText == edit.title && r[i].contentText == items[i].contentText)
      && (edit.NewContent? ==> r[i].contentText == edit.content && r[i].titleText == items[i].titleText)
  {
    var r := seq(|items|, i requires 0 <= i < |items| => EditItem(items[i], noteUuid, edit, draws(i)));
    assert forall i :: 0 <= i < |items| ==> r[i] == EditItem(items[i], noteUuid, edit, draws(i));
    r
  }

  /** With no note of that uuid on the list, an edit changes nothing. */
  lemma EditWithoutMatchChangesNothing(items: seq<MapItem>, noteUuid: Uuid, edit: NoteEdit, draws: nat -> Uuid)
    requires forall i :: 0 <= i < |items| ==> !(items[i].Note? && items[i].uuid == noteUuid)
    ensures EditNotes(items, noteUuid, edit, draws) == items
  {
  }

  // ---------------------------------------------------------------------
  // Assigning to a MutableStateFlow
  // ---------------------------------------------------------------------

  /** Kotlin's generated `equals` on two items: notes by id and texts, spaces
      by their nodes. The `uuid` declared in the `MapItem` base class is not
      a constructor property and takes no part. */
  predicate SameItem(a: MapItem, b: MapItem)
    ensures SameItem(a, b) <==> a.(uuid := b.uuid) == b
  {
    match a
    case Note(_, id, title, content) => b.Note? && b.id == id && b.titleText == title && b.contentText == content
    case Space(_, nodes) => b.Space? && b.nodeInfo == nodes
  }

  /** `List.equals` over `SameItem`: it holds of equal lists and, exactly,
      of lists whose items differ in their uuids only. */
  predicate SameUpToUuid(a: seq<MapItem>, b: seq<MapItem>)
    ensures a == b ==> SameUpToUuid(a, b)
    ensures SameUpToUuid(a, b) <==> |a| == |b| && forall i :: 0 <= i < |a| ==> a[i].(uuid := b[i].uuid) == b[i]
  {
    |a| == |b| && forall i :: 0 <= i < |a| ==> SameItem(a[i], b[i])
  }

  /** The value of a `MutableStateFlow` holding `current` after `value = next`:
      the flow keeps its current value when the new one `equals` it, so the
      result always equals `next` but may carry the old uuids. */
  function Published(current: seq<MapItem>, next: seq<MapItem>): (r: seq<MapItem>)
    ensures SameUpToUuid(r, next)
    ensures r == current || r == next
    ensures SameUpToUuid(next, current) ==> r == current
    ensures !SameUpToUuid(next, current) ==> r == next
  {
    if SameUpToUuid(next, current) then current else next
  }

  /** The edit gives the note under `noteUuid` a text it does not have. */
  predicate ChangesText(item: MapItem, noteUuid: Uuid, edit: NoteEdit)
  {
    && item.Note? && item.uuid == noteUuid
    && match edit
       case NewTitle(title) => item.titleText != title
       case NewContent(content) => item.contentText != content
  }

  /** An edit is published exactly when it changes some note's text;
      otherwise the list, uuids included, stays as it was. */
  lemma EditPublishes(items: seq<MapItem>, noteUuid: Uuid, edit: NoteEdit, draws: nat -> Uuid)
    ensures (exists i :: 0 <= i < |items| && ChangesText(items[i], noteUuid, edit)) ==>
      Published(items, EditNotes(items, noteUuid, edit, draws)) == EditNotes(items, noteUuid, edit, draws)
    ensures (forall i :: 0 <= i < |items| ==> !ChangesText(items[i], noteUuid, edit)) ==>
      Published(items, EditNotes(items, noteUuid, edit, draws)) == items
  {
    var edited := EditNotes(items, noteUuid, edit, draws);
    if i :| 0 <= i < |items| && ChangesText(items[i], noteUuid, edit) {
      assert !SameItem(edited[i], items[i]);
    } else {
      assert SameUpToUuid(edited, items);
    }
  }

  /** Because a published edit gives the note a new uuid, a second edit with
      the uuid the first one used finds nothing, unless a drawn uuid repeats
      it. This holds when the first edit changed the text; one that did not
      is dropped by the flow and the note keeps its uuid (`EditPublishes`). */
  lemma StaleUuidEditIsLost(items: seq<MapItem>, noteUuid: Uuid, first: NoteEdit, second: NoteEdit,
                            draws: nat -> Uuid, nextDraws: nat -> Uuid, k: nat)
    requires k < |items| && ChangesText(items[k], noteUuid, first)
    requires forall i :: 0 <= i < |items| ==> draws(i) != noteUuid
    ensures var once := Published(items, EditNotes(items, noteUuid, first, draws));
      Published(once, EditNotes(once, noteUuid, second, nextDraws)) == once
  {
    EditPublishes(items, noteUuid, first, draws);
    var once := EditNotes(items, noteUuid, first, draws);
    EditWithoutMatchChangesNothing(once, noteUuid, second, nextDraws);
  }

  /** Following the note under the uuid it now has makes consecutive edits of
      the title and the content both land on it. The title edit changes the
      title, so it is published and the note takes the uuid drawn for it;
      the content edit takes a second fresh uuid only if it changes the
      content. */
  lemma EditsFollowingFreshUuid(items: seq<MapItem>, k: nat, title: string, content: string,
                                draws: nat -> Uuid, nextDraws: nat -> Uuid)
    requires k < |items| && items[k].Note? && items[k].titleText != title
    requires forall i :: 0 <= i < |items| && i != k ==> items[i].uuid != items[k].uuid
    requires forall i :: 0 <= i < |items| ==> items[i].uuid != draws(k)
    ensures var once := Published(items, EditNotes(items, items[k].uuid, NewTitle(title), draws));
      var twice := Published(once, EditNotes(once, draws(k), NewContent(content), nextDraws));
      twice[k] == Note(if content == items[k].contentText then draws(k) else nextDraws(k), items[k].id, title, content)
  {
    EditPublishes(items, items[k].uuid, NewTitle(title), draws);
    var once := EditNotes(items, items[k].uuid, NewTitle(title), draws);
    assert once[k] == Note(draws(k), items[k].id, title, items[k].contentText);
    assert forall i :: 0 <= i < |once| && i != k ==> once[i] == items[i];
    EditPublishes(once, draws(k), NewContent(content), nextDraws);
    if content != items[k].contentText {
      assert ChangesText(once[k], draws(k), NewContent(content));
    }
  }

  // ---------------------------------------------------------------------
  // The view model
  // ---------------------------------------------------------------------

  class MapEditorViewModel {
    /** `_isEditorModeEnabled.value`. */
    var isEditorModeEnabled: bool
    /** `_pagerList.value`. */
    var pagerList: seq<MapItem>

    constructor ()
      ensures !isEditorModeEnabled && pagerList == []
    {
      isEditorModeEnabled := false;
      pagerList := [];
    }

    /** `changeEditorModeState(value)`. */
    method ChangeEditorModeState(value: bool)
      modifies this
      ensures isEditorModeEnabled == value && pagerList == old(pagerList)
    {
      isEditorModeEnabled := value;
    }

    /** `changePagerList(value)`: a value equal to the current list leaves
        the list as it is. */
    method ChangePagerList(value: seq<MapItem>)
      modifies this
      ensures pagerList == Published(old(pagerList), value)
      ensures isEditorModeEnabled == old(isEditorModeEnabled)
    {
      if !SameUpToUuid(value, pagerList) {
        pagerList := value;
      }
    }

    /** `changeNoteTitle(noteUUID, newTitle)`. */
    method ChangeNoteTitle(noteUuid: Uuid, newTitle: string, draws: nat -> Uuid)
      modifies this
      ensures pagerList == Published(old(pagerList), EditNotes(old(pagerList), noteUuid, NewTitle(newTitle), draws))
      ensures isEditorModeEnabled == old(isEditorModeEnabled)
    {
      var edited := EditNotes(pagerList, noteUuid, NewTitle(newTitle), draws);
      if !SameUpToUuid(edited, pagerList) {
        pagerList := edited;
      }
    }

    /** `changeNoteContent(noteUUID, newContent)`. */
    method ChangeNoteContent(noteUuid: Uuid, newContent: string, draws: nat -> Uuid)
      modifies this
      ensures pagerList == Published(old(pagerList), EditNotes(old(pagerList), noteUuid, NewContent(newContent), draws))
      ensures isEditorModeEnabled == old(isEditorModeEnabled)
    {
      var edited := EditNotes(pagerList, noteUuid, NewContent(newContent), draws);
      if !SameUpToUuid(edited, pagerList) {
        pagerList := edited;
      }
    }
  }

  // ---------------------------------------------------------------------
  // Companion objects
  // ---------------------------------------------------------------------

  /** `MapItem.Note`'s companion object and its `nextId`. */
  class NoteCompanion {
    var nextId: int

    ghost predicate Valid()
      reads this
    {
      IsInt(nextId)
    }

    constructor ()
      ensures Valid() && nextId == 0
    {
      nextId := 0;
    }

    /** `Note.create(titleText, contentText)`: the note takes the current
        counter as its id and the counter moves on by one. `uuid` is the
        value the new item draws. */
    method Create(uuid: Uuid, titleText: string := "", contentText: string := "") returns (note: MapItem)
      requires Valid()
      modifies this
      ensures Valid()
      ensures note == Note(uuid, old(nextId), titleText, contentText)
      ensures nextId == IntInc(old(nextId))
    {
      note := Note(uuid, nextId, titleText, contentText);
      nextId := IntInc(nextId);
    }
  }

  /** `SpaceNode`'s companion object, with a counter of its own. */
  class SpaceNodeCompanion {
    var nextId: int

    ghost predicate Valid()
      reads this
    {
      IsInt(nextId)
    }

    constructor ()
      ensures Valid() && nextId == 0
    {
      nextId := 0;
    }

    /** `SpaceNode.create(offset, hasBorder, text)`; `uuid` is the value
        `UUID.randomUUID()` gives. */
    method Create(uuid: Uuid, offset: Offset := ZERO_OFFSET, hasBorder: bool := true, text: string := "")
      returns (node: SpaceNode)
      requires Valid()
      modifies this
      ensures Valid()
      ensures node == SpaceNode(old(nextId), uuid, offset, hasBorder, text)
      ensures nextId == IntInc(old(nextId))
    {
      node := SpaceNode(nextId, uuid, offset, hasBorder, text);
      nextId := IntInc(nextId);
    }
  }

  /** Two notes made one after the other by a fresh companion get ids 0 and
      1, with empty texts by default, and the space-node counter is not
      touched. */
  method CreateTwoNotes(notes: NoteCompanion, nodes: SpaceNodeCompanion, u1: Uuid, u2: Uuid)
    returns (first: MapItem, second: MapItem)
    requires notes.Valid() && notes.nextId == 0
    modifies notes
    ensures first == Note(u1, 0, "", "") && second == Note(u2, 1, "", "")
    ensures notes.nextId == 2
    ensures nodes.nextId == old(nodes.nextId)
  {
    first := notes.Create(u1);
    second := notes.Create(u2);
  }
}
