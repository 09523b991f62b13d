/** The shortcut manager: the state of the shortcuts grid and the handlers that change it. */
module Shortcuts {
  import opened Wrappers
  import opened BookmarkList
  import opened Editor

  /** The component's four pieces of state, plus the copy of the list kept in local
      storage. Each handler updates the fields it sets, in place. */
  class ShortcutManager {
    /** The shortcuts, in display order. */
    var bookmarks: seq<Bookmark>
    /** Whether the editor dialog is shown. */
    var showModal: bool
    /** `None` while adding a shortcut; the position of the record being edited otherwise. */
    var editIndex: Option<nat>
    /** The editor's working copy. */
    var draft: Draft
    /** The `bookmarks` entry of local storage: the save effect writes the whole list
        there after every change to the list. */
    var persisted: seq<Bookmark>

    /** The edit target, if any, is a position of the list or the first index past its end
        (the end is reached when the record being edited, the last one, is deleted while the
        dialog is open). */
    ghost predicate EditTargetWritable()
      reads this
    {
      editIndex.Some? ==> editIndex.value <= |bookmarks|
    }

    /** First render followed by the load effect: the stored list when local storage holds
        one (`stored` is its decoded contents), the empty list otherwise; the editor is
        closed in add mode with an empty draft. */
    constructor (stored: Option<seq<Bookmark>>)
      ensures bookmarks == (if stored.Some? then stored.value else [])
      ensures persisted == bookmarks
      ensures !showModal && editIndex == None && draft == EmptyDraft
      ensures EditTargetWritable()
    {
      bookmarks := if stored.Some? then stored.value else [];
      showModal := false;
      editIndex := None;
      draft := EmptyDraft;
      persisted := bookmarks;
    }

    /** Opens the editor to add a shortcut: empty draft, add mode, dialog shown. */
    method OpenAddModal()
      modifies this`draft, this`editIndex, this`showModal
      ensures draft == EmptyDraft && editIndex == None && showModal
      ensures EditTargetWritable()
    {
      draft := EmptyDraft;
      editIndex := None;
      showModal := true;
    }

    /** Opens the editor on the record at `index`: the draft is a copy of it, the edit
        target is `index`, and the dialog is shown. */
    method OpenEditModal(index: nat)
      requires index < |bookmarks|
      modifies this`draft, this`editIndex, this`showModal
      ensures draft == FromBookmark(bookmarks[index])
      ensures editIndex == Some(index) && showModal
      ensures EditTargetWritable()
    {
      draft := FromBookmark(bookmarks[index]);
      editIndex := Some(index);
      showModal := true;
    }

    /** The dialog's close button and the form's Cancel button: hides the dialog and
        nothing else, so the draft and the edit target survive. */
    method CloseModal()
      modifies this`showModal
      ensures !showModal
    {
      showModal := false;
    }

    /** Typing in the name field replaces the draft's name. */
    method SetDraftName(name: string)
      modifies this`draft
      ensures draft == old(draft).(name := name)
    {
      draft := draft.(name := name);
    }

    /** Typing in the url field replaces the draft's url. */
    method SetDraftUrl(url: string)
      modifies this`draft
      ensures draft == old(draft).(url := url)
    {
      draft := draft.(url := url);
    }

    /** Submitting the form. A draft with an empty name or url, or whose url does not
        parse, changes nothing at all. Otherwise the committed record (draft name and url,
        favicon derived from the url's origin) is appended in add mode and assigned to the
        edit target in edit mode (which appends it when the target is just past the end);
        then the list is saved, and the editor is reset and closed. */
    method AddOrEditBookmark(originOf: string -> Option<string>) returns (r: Result<Bookmark, Rejection>)
      requires EditTargetWritable()
      modifies this
      ensures r == Materialize(old(draft), originOf)
      ensures r.Failure? ==>
                bookmarks == old(bookmarks) && persisted == old(persisted) &&
                editIndex == old(editIndex) && draft == old(draft) && showModal == old(showModal)
      ensures r.Success? && old(editIndex).None? ==> bookmarks == Append(old(bookmarks), r.value)
      ensures r.Success? && old(editIndex).Some? ==>
                bookmarks == WriteAt(old(bookmarks), old(editIndex).value, r.value)
      ensures r.Success? ==>
                persisted == bookmarks && draft == EmptyDraft && editIndex == None && !showModal
      ensures EditTargetWritable()
    {
      if draft.name == "" || draft.url == "" {
        r := Failure(MissingField);
        return;
      }
      var origin := originOf(draft.url);
      if origin.None? {
        r := Failure(UnparsableUrl);
        return;
      }
      var committed := Bookmark(draft.name, draft.url, FaviconUrl(origin.value));
      if editIndex.Some? {
        bookmarks := WriteAt(bookmarks, editIndex.value, committed);
      } else {
        bookmarks := Append(bookmarks, committed);
      }
      persisted := bookmarks;
      draft := EmptyDraft;
      editIndex := None;
      showModal := false;
      r := Success(committed);
    }

    /** Deletes the record at `index` (no record when `index` is not a position) and saves
        the list. The editor state is left as it was. */
    method DeleteBookmark(index: int)
      modifies this`bookmarks, this`persisted
      ensures bookmarks == RemoveAt(old(bookmarks), index)
      ensures persisted == bookmarks
    {
      bookmarks := RemoveAt(bookmarks, index);
      persisted := bookmarks;
    }
  }

  /** A session that adds a shortcut, edits it and deletes it, showing what a caller can
      conclude from the handlers' contracts alone. */
  method AddEditDeleteSession(originOf: string -> Option<string>)
    requires originOf("https://example.com/a").Some?
  {
    var m := new ShortcutManager(None);
    m.OpenAddModal();
    m.SetDraftName("Example");
    m.SetDraftUrl("https://example.com/a");
    var added := m.AddOrEditBookmark(originOf);
    assert added.Success? && |m.bookmarks| == 1 && m.bookmarks[0].name == "Example";
    assert m.persisted == m.bookmarks && !m.showModal;

    m.OpenEditModal(0);
    m.CloseModal();
    assert m.editIndex == Some(0) && m.draft.name == "Example";
    m.OpenEditModal(0);
    m.SetDraftName("");
    var rejected := m.AddOrEditBookmark(originOf);
    assert rejected == Failure(MissingField) && m.showModal && m.bookmarks[0].name == "Example";
    m.SetDraftName("Renamed");
    var edited := m.AddOrEditBookmark(originOf);
    assert |m.bookmarks| == 1 && m.bookmarks[0].name == "Renamed";

    m.DeleteBookmark(1);
    assert |m.bookmarks| == 1;
    m.DeleteBookmark(0);
    assert m.bookmarks == [] && m.persisted == [];

    // Deleting the record being edited, when it is the last one, leaves the edit target
    // just past the end; submitting then brings the record back at the end of the list.
    m.OpenAddModal();
    m.SetDraftName("Example");
    m.SetDraftUrl("https://example.com/a");
    added := m.AddOrEditBookmark(originOf);
    m.OpenEditModal(0);
    m.DeleteBookmark(0);
    assert m.bookmarks == [] && m.editIndex == Some(0);
    edited := m.AddOrEditBookmark(originOf);
    assert edited.Success? && |m.bookmarks| == 1 && m.bookmarks[0].name == "Example";
  }
}
