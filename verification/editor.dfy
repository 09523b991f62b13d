/** The editor's draft and the rule that turns a submitted draft into a stored record. */
module Editor {
  import opened Wrappers
  import opened BookmarkList

  /** The working copy behind the editor's form. A fresh draft has only an empty name and
      url; a draft opened on an existing record is a copy of that record, favicon included. */
  datatype Draft = Draft(name: string, url: string, favicon: Option<string>)

  /** Why a submitted draft is not committed: the early return on an empty name or url, or
      the exception thrown when the url does not parse. */
  datatype Rejection = MissingField | UnparsableUrl

  /** The draft `{ name: "", url: "" }` that the editor starts from and is reset to. */
  const EmptyDraft: Draft := Draft("", "", None)

  /** The path appended to the url's origin to locate its icon. */
  const FaviconPath: string := "/favicon.ico"

  /** The draft the editor holds after being opened on record `b`. */
  function FromBookmark(b: Bookmark): Draft
  {
    Draft(b.name, b.url, Some(b.favicon))
  }

  /** The icon address for a parsed url: its origin followed by the favicon path. */
  function FaviconUrl(origin: string): string
  {
    origin + FaviconPath
  }

  /** Distinct origins get distinct icon addresses: the origin can be read back from the
      favicon of a committed record by dropping the favicon path at its end. */
  lemma {:induction false} FaviconUrlInjective(o1: string, o2: string)
    ensures FaviconUrl(o1) == FaviconUrl(o2) <==> o1 == o2
  {
    if FaviconUrl(o1) == FaviconUrl(o2) {
      var f := FaviconUrl(o1);
      assert |o1| == |f| - |FaviconPath| == |o2|;
      assert o1 == f[..|o1|] == o2;
    }
  }

  /** Validates a draft and builds the record it commits. `originOf` stands for
      `new URL(u).origin`: `None` when the constructor throws. A draft with an empty name
      or url is turned away before the url is parsed; otherwise the record keeps the
      draft's name and url and always gets the favicon derived from the url's origin. */
  function Materialize(d: Draft, originOf: string -> Option<string>): (r: Result<Bookmark, Rejection>)
    ensures r.Failure? <==> d.name == "" || d.url == "" || originOf(d.url).None?
    ensures r == Failure(MissingField) <==> d.name == "" || d.url == ""
    ensures r.Success? ==>
              r.value.name == d.name && r.value.url == d.url &&
              r.value.favicon == FaviconUrl(originOf(d.url).value)
  {
    if d.name == "" || d.url == "" then Failure(MissingField)
    else match originOf(d.url)
      case None => Failure(UnparsableUrl)
      case Some(origin) => Success(Bookmark(d.name, d.url, FaviconUrl(origin)))
  }

  /** The favicon a draft carries plays no part in what is committed. */
  lemma MaterializeIgnoresDraftFavicon(d: Draft, f: Option<string>, originOf: string -> Option<string>)
    ensures Materialize(d.(favicon := f), originOf) == Materialize(d, originOf)
  {
  }

  /** A fresh draft is never committed. */
  lemma EmptyDraftRejected(originOf: string -> Option<string>)
    ensures Materialize(EmptyDraft, originOf) == Failure(MissingField)
  {
  }

  /** Opening the editor on a stored record and submitting it unchanged gives back that
      record exactly when its name and url are non-empty, its url parses and its favicon
      is the one derived from its url; otherwise only the favicon is refreshed, or the
      submission is rejected. */
  lemma MaterializeFromBookmark(b: Bookmark, originOf: string -> Option<string>)
    ensures Materialize(FromBookmark(b), originOf) == Success(b) <==>
              b.name != "" && b.url != "" && originOf(b.url).Some? &&
              b.favicon == FaviconUrl(originOf(b.url).value)
    ensures Materialize(FromBookmark(b), originOf).Success? ==>
              Materialize(FromBookmark(b), originOf).value == b.(favicon := FaviconUrl(originOf(b.url).value))
  {
  }

  /** Submitting a committed record again commits it unchanged: materializing is idempotent. */
  lemma MaterializeIdempotent(d: Draft, originOf: string -> Option<string>)
    requires Materialize(d, originOf).Success?
    ensures Materialize(FromBookmark(Materialize(d, originOf).value), originOf) == Materialize(d, originOf)
  {
  }
}
