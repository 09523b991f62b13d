# my-shortcuts: the shortcut manager, in Dafny

The start page shows a grid of user-chosen shortcuts. The component that owns this grid
(`components/Shortcuts.tsx`) keeps four pieces of state:

- the ordered list of shortcuts, each `{name, url, favicon}`;
- the edit target, either `null` (add mode) or the position of the record being edited;
- the draft behind the editor form;
- whether the editor dialog is shown.

Its handlers open the editor to add or to edit, submit the draft, delete a record by
position, and close the dialog. After every change the list is saved to local storage.

The model has four modules:

- `Wrappers` (`wrappers.dfy`) holds `Option` and `Result`.
- `BookmarkList` (`bookmark_list.dfy`) holds the `Bookmark` record and the list
  computations: spread-append, replace at a position, the index write on a copy that
  edit mode performs (a replace, or an append at the first index past the end), and the
  filter that drops one position. The lemmas about them are here too.
- `Editor` (`editor.dfy`) holds the draft and the submit rule. `Materialize` validates the
  draft and builds the committed record with its favicon.
- `Shortcuts` (`shortcuts.dfy`) holds the class `ShortcutManager`. Its fields are the
  component's state plus the stored copy of the list. Each handler is a method that
  updates those fields in place, and its contract states the whole new state.

`new URL(u).origin` is a platform call. The model passes it in as the function
`originOf: string -> Option<string>`, where `None` means the constructor throws. The
favicon rule is stated over that function.

Facts about the code that the model follows:

- Records have no `id`. A record is addressed by its position in the list, both for
  editing and for deleting.
- There are no labels, no label filter, no drag reordering, no schema migration and no
  stored view mode.
- The favicon is always replaced by `origin + "/favicon.ico"`, even when the draft (a copy
  of an existing record) already carries one.
- A draft is rejected when its name or url is empty, or when its url does not parse. A
  name made of blanks is accepted.

## Model

| member | source | states |
|---|---|---|
| `BookmarkList.Append` | components/Shortcuts.tsx:55-57 | Adding makes the list one longer, puts the new record last and keeps every earlier record at its position |
| `BookmarkList.ReplaceAt` | components/Shortcuts.tsx:50-54 | Editing keeps the length, puts the new record at the edit position and keeps every other position unchanged |
| `BookmarkList.WriteAt` | components/Shortcuts.tsx:52-53 | The edit-mode write on a copy, for a target that is a position or the first index past the end. The new record lands at the target and every other old record keeps its place. The list grows by one exactly when the target is past the end |
| `BookmarkList.RemoveAt` | components/Shortcuts.tsx:65-67 | The position-filter removes exactly position `index` (the list becomes `bs[..index] + bs[index+1..]`) and removes nothing when `index` is negative or too large |
| `BookmarkList.RemoveAtUndoesAppend` | components/Shortcuts.tsx:55-67 | Adding a record and then deleting the last position gives back the original list |
| `BookmarkList.RemoveAtShifts` | components/Shortcuts.tsx:66 | After a delete, earlier records stay in place and later ones move up by one, so the remaining records keep their relative order |
| `BookmarkList.RemoveAtRemovesOne` | components/Shortcuts.tsx:66 | A delete removes exactly one occurrence, that of the deleted record, and keeps the count of every other record (multiset equation) |
| `BookmarkList.RemoveAtAfterReplaceAt` | components/Shortcuts.tsx:50-67 | Editing a record and then deleting its position is the same as deleting it directly |
| `BookmarkList.ReplaceAtRoundTrip` | components/Shortcuts.tsx:52-53 | Writing back the record already at a position changes nothing. A later write at the same position supersedes an earlier one |
| `Editor.FaviconUrlInjective` | components/Shortcuts.tsx:43 | Two origins give the same favicon address exactly when they are equal, so the origin can be read back from a committed favicon |
| `Editor.Materialize` | components/Shortcuts.tsx:39-48 | A draft is rejected exactly when its name or url is empty, or when its url does not parse. The empty-field rejection happens exactly when a field is empty. An accepted draft commits its own name and url, with the favicon derived from the url's origin |
| `Editor.MaterializeIgnoresDraftFavicon` | components/Shortcuts.tsx:45-48 | Any favicon the draft carries is overwritten and has no effect on the result |
| `Editor.EmptyDraftRejected` | components/Shortcuts.tsx:40 | The fresh draft `{name: "", url: ""}` is never committed |
| `Editor.MaterializeFromBookmark` | components/Shortcuts.tsx:33-48 | Submitting an unchanged edit returns the same record exactly when that record is valid and its favicon is already the derived one. Otherwise only the favicon is refreshed |
| `Editor.MaterializeIdempotent` | components/Shortcuts.tsx:42-48 | Opening a committed record and submitting it again commits the same record |
| `Shortcuts.ShortcutManager.constructor` | components/Shortcuts.tsx:9-20 | The initial state is the stored list when local storage holds one and the empty list otherwise. The editor starts closed, in add mode, with an empty draft |
| `Shortcuts.ShortcutManager.OpenAddModal` | components/Shortcuts.tsx:27-31 | Resets the draft to empty, sets add mode and shows the dialog. The list is untouched |
| `Shortcuts.ShortcutManager.OpenEditModal` | components/Shortcuts.tsx:33-37 | Copies the record at `index` into the draft, makes `index` the edit target and shows the dialog. The list is untouched |
| `Shortcuts.ShortcutManager.CloseModal` | components/Shortcuts.tsx:88-90 | The close button and the Cancel button (line 131, the same update) hide the dialog. They change nothing else, so the draft and the edit target survive |
| `Shortcuts.ShortcutManager.SetDraftName` | components/Shortcuts.tsx:107-109 | Typing a name replaces only the draft's name |
| `Shortcuts.ShortcutManager.SetDraftUrl` | components/Shortcuts.tsx:121-123 | Typing a url replaces only the draft's url |
| `Shortcuts.ShortcutManager.AddOrEditBookmark` | components/Shortcuts.tsx:39-63 | On an empty field or an unparsable url, nothing changes: not the list, the stored copy, the edit target, the draft or the dialog. On success, add mode appends the record. Edit mode assigns it to the edit target, which appends it when the target is just past the end. The list is then saved, the draft reset, the edit target cleared and the dialog hidden |
| `Shortcuts.ShortcutManager.DeleteBookmark` | components/Shortcuts.tsx:65-68 | The list becomes the position-filter of the old list and is saved. The editor state is untouched |

## Left out

- Local storage I/O and JSON encoding (components/Shortcuts.tsx:15-25) are left out. The
  constructor takes the already-decoded stored list, and `None` stands for a missing or
  empty entry. The save effect is modelled as the field `persisted`, which is set to the
  whole list by every handler that changes the list. A malformed entry, on which
  `JSON.parse` throws, is not modelled.
- The internals of `new URL` and `.origin` are left out. They are the parameter `originOf`.
- Fields other than name, url and favicon are not modelled. A stored record with extra
  fields would carry them through `{...newBookmark}`, but the model's records have only
  these three.
- Shortcuts.ShortcutManager.AddOrEditBookmark: requires the edit target to be at most the
  list's length. The delete menu can be reached by keyboard behind the open dialog, so
  records can be deleted while the editor is open. One delete of the edited record, when
  it is the last record, leaves the target just past the end. That case is modelled: the
  write appends the record, so the deleted record comes back at the end. Two or more such
  deletes can leave the target further out. The write then leaves empty slots in the
  array, and the model does not capture that case. A delete before the target shifts the
  records, so the edit then overwrites a different record. The model allows this, since
  `DeleteBookmark` does not touch `editIndex`.
- Shortcuts.ShortcutManager.OpenEditModal: requires `index` to be a position. The source
  only calls it from the rendered list. An out-of-range index would put `undefined` in
  the draft, and the model does not capture that.
- Rendering, the form markup, the dialog shell (components/Modal.tsx) and the item menu
  (components/ShortcutItem.tsx) are presentation. The only things modelled from them are
  the visibility flag and the callbacks they forward.
- The search box, the suggestion proxy, the password gate and the icons are left out. They
  hold no shortcut state.
