/** The shortcut list and the three list computations the shortcut manager performs on it:
    appending a new record, replacing the record at a position, and filtering out the
    record at a position. Records have no identity of their own: a record is addressed
    by its position in the list. */
module BookmarkList {

  /** One shortcut tile, as kept in the list and written to local storage. */
  datatype Bookmark = Bookmark(name: string, url: string, favicon: string)

  /** The list built by the spread `[...bookmarks, b]`: the old records in their old
      places, and `b` as one new record at the end. */
  function Append(bs: seq<Bookmark>, b: Bookmark): (r: seq<Bookmark>)
    ensures |r| == |bs| + 1
    ensures r[|bs|] == b
    ensures forall j :: 0 <= j < |bs| ==> r[j] == bs[j]
  {
    bs + [b]
  }

  /** The list obtained by copying `bs` and writing `b` at position `i` of the copy. */
  function ReplaceAt(bs: seq<Bookmark>, i: nat, b: Bookmark): (r: seq<Bookmark>)
    requires i < |bs|
    ensures |r| == |bs|
    ensures r[i] == b
    ensures forall j :: 0 <= j < |bs| && j != i ==> r[j] == bs[j]
  {
    bs[i := b]
  }

  /** The list obtained by copying `bs` and assigning `b` to index `i` of the copy, for an
      index that is a position or the first index past the end. As with any array
      assignment, a position is overwritten and the index past the end extends the list by
      one: the result holds `b` at `i`, every other old record where it was, and nothing else. */
  function WriteAt(bs: seq<Bookmark>, i: nat, b: Bookmark): (r: seq<Bookmark>)
    requires i <= |bs|
    ensures |r| == if i < |bs| then |bs| else |bs| + 1
    ensures r[i] == b
    ensures forall j :: 0 <= j < |bs| && j != i ==> r[j] == bs[j]
  {
    if i < |bs| then ReplaceAt(bs, i, b) else Append(bs, b)
  }

  /** `bs.filter((_, i) => i !== index)`: every record whose position is not `index`, in
      the original order. It is defined position by position, from the last record back,
      and its contract gives the closed form: exactly position `index` is cut out when
      it is a position of the list, and nothing is removed otherwise (a negative or too
      large index matches no position). */
  function RemoveAt(bs: seq<Bookmark>, index: int): (r: seq<Bookmark>)
    ensures 0 <= index < |bs| ==> r == bs[..index] + bs[index + 1..]
    ensures !(0 <= index < |bs|) ==> r == bs
    decreases |bs|
  {
    if bs == [] then []
    else
      var last := |bs| - 1;
      var front := bs[..last];
      assert bs == front + [bs[last]];
      assert 0 <= index < last ==> front[..index] == bs[..index] && front[index + 1..] + [bs[last]] == bs[index + 1..];
      RemoveAt(front, index) + (if last != index then [bs[last]] else [])
  }

  /** Adding a record and then deleting the last position gives back the old list. */
  lemma RemoveAtUndoesAppend(bs: seq<Bookmark>, b: Bookmark)
    ensures RemoveAt(Append(bs, b), |bs|) == bs
  {
  }

  /** Deleting a position shifts every later record one place towards the front and
      keeps every earlier record where it was, so the survivors keep their relative order. */
  lemma RemoveAtShifts(bs: seq<Bookmark>, index: int, j: nat)
    requires 0 <= index < |bs|
    requires j < |bs| - 1
    ensures |RemoveAt(bs, index)| == |bs| - 1
    ensures RemoveAt(bs, index)[j] == if j < index then bs[j] else bs[j + 1]
  {
  }

  /** Deleting a position removes exactly one record, the one that was there: the list
      loses one occurrence of `bs[index]` and every other record keeps its count. */
  lemma {:induction false} RemoveAtRemovesOne(bs: seq<Bookmark>, index: int)
    requires 0 <= index < |bs|
    ensures multiset(RemoveAt(bs, index)) + multiset{bs[index]} == multiset(bs)
  {
    var front, back := bs[..index], bs[index + 1..];
    assert bs == front + [bs[index]] + back;
    assert multiset(bs) == multiset(front) + multiset{bs[index]} + multiset(back);
  }

  /** Editing a record and then deleting it is the same as deleting it straight away. */
  lemma RemoveAtAfterReplaceAt(bs: seq<Bookmark>, i: nat, b: Bookmark)
    requires i < |bs|
    ensures RemoveAt(ReplaceAt(bs, i, b), i) == RemoveAt(bs, i)
  {
  }

  /** Writing back the record that is already at a position changes nothing, and a second
      write at the same position supersedes the first. */
  lemma ReplaceAtRoundTrip(bs: seq<Bookmark>, i: nat, b: Bookmark, c: Bookmark)
    requires i < |bs|
    ensures ReplaceAt(bs, i, bs[i]) == bs
    ensures ReplaceAt(ReplaceAt(bs, i, b), i, c) == ReplaceAt(bs, i, c)
    ensures ReplaceAt(ReplaceAt(bs, i, b), i, bs[i]) == bs
  {
  }
}
