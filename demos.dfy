/**
 * The demos store: the tolerant reader that turns a server record into a
 * `Demo`, the envelope unwrapping of list responses, the body of a create
 * request, and the store state after `loadDemos`, `getDemoBySlug` and
 * `createDemo` have received their response.
 */
module Demos {
  import opened Wrappers
  import opened Text
  import opened Js
  import opened Http
  import Slug

  datatype Demo = Demo(
    id: string,
    title: string,
    slug: string,
    htmlContent: string,
    userIds: seq<string>,
    createdAt: Option<string>)

  /** The user list as the reader looks it up: `raw.userIds ?? raw.user_ids ?? raw.userIds`. */
  function DemoUsers(raw: Json): Json {
    Get(raw, "userIds").Or(Get(raw, "user_ids")).Or(Get(raw, "userIds"))
  }

  /** The content as the reader looks it up: `raw.htmlContent ?? raw.html_content ?? raw.HtmlContent`. */
  function DemoHtml(raw: Json): Json {
    Get(raw, "htmlContent").Or(Get(raw, "html_content")).Or(Get(raw, "HtmlContent"))
  }

  /** `normalizeDemo(raw)`. */
  function NormalizeDemo(raw: Json): Demo {
    Demo(
      StringOr(Get(raw, "id").Or(Get(raw, "Id")), ""),
      StringOr(Get(raw, "title").Or(Get(raw, "Title")), ""),
      StringOr(Get(raw, "slug").Or(Get(raw, "Slug")), ""),
      StringOr(DemoHtml(raw), ""),
      StringList(DemoUsers(raw)),
      OptionalString(Get(raw, "createdAt").Or(Get(raw, "created_at"))))
  }

  /** The third spelling of the user list repeats the first, so only `userIds` and `user_ids` matter. */
  lemma RepeatedUsersKeyIsInert(raw: Json)
    ensures NormalizeDemo(raw).userIds == StringList(Get(raw, "userIds").Or(Get(raw, "user_ids")))
  {
    var a := Get(raw, "userIds");
    if a.Null? {
      assert DemoUsers(raw) == Get(raw, "user_ids").Or(a);
    }
  }

  /**
   * The content: `htmlContent` when it is present, else `html_content`, else
   * `HtmlContent`, else the empty string.
   */
  lemma HtmlPrecedence(raw: Json)
    ensures !Get(raw, "htmlContent").Null? ==> NormalizeDemo(raw).htmlContent == ToJsString(Get(raw, "htmlContent"))
    ensures Get(raw, "htmlContent").Null? && !Get(raw, "html_content").Null? ==>
      NormalizeDemo(raw).htmlContent == ToJsString(Get(raw, "html_content"))
    ensures Get(raw, "htmlContent").Null? && Get(raw, "html_content").Null? ==>
      NormalizeDemo(raw).htmlContent == StringOr(Get(raw, "HtmlContent"), "")
  {
  }

  /** The demo every key-less record (or non-object) reads as. */
  const EmptyDemo: Demo := Demo("", "", "", "", [], None)

  /** Missing or null members take their defaults: `''`, `[]` or undefined. */
  lemma DemoDefaults(raw: Json)
    requires Get(raw, "id").Null? && Get(raw, "Id").Null?
    requires Get(raw, "title").Null? && Get(raw, "Title").Null?
    requires Get(raw, "slug").Null? && Get(raw, "Slug").Null?
    requires Get(raw, "htmlContent").Null? && Get(raw, "html_content").Null? && Get(raw, "HtmlContent").Null?
    requires Get(raw, "userIds").Null? && Get(raw, "user_ids").Null?
    requires Get(raw, "createdAt").Null? && Get(raw, "created_at").Null?
    ensures NormalizeDemo(raw) == EmptyDemo
  {
  }

  /**
   * A demo written as the server would send it, using either the camelCase
   * names or the alternate spelling the reader accepts for each member.
   */
  function EncodeDemo(d: Demo, c: Casing): Json {
    var base := map[
      Key(c, "id", "Id") := Str(d.id),
      Key(c, "title", "Title") := Str(d.title),
      Key(c, "slug", "Slug") := Str(d.slug),
      Key(c, "htmlContent", "html_content") := Str(d.htmlContent),
      Key(c, "userIds", "user_ids") := StrArray(d.userIds)];
    Obj(WithOptional(base, Key(c, "createdAt", "created_at"), d.createdAt))
  }

  // One member of an encoded demo at a time: each reads back as the field it was written from.

  lemma EncodedDemoId(d: Demo, c: Casing)
    ensures StringOr(Get(EncodeDemo(d, c), "id").Or(Get(EncodeDemo(d, c), "Id")), "") == d.id
  {
  }

  lemma EncodedDemoTitle(d: Demo, c: Casing)
    ensures StringOr(Get(EncodeDemo(d, c), "title").Or(Get(EncodeDemo(d, c), "Title")), "") == d.title
  {
  }

  lemma EncodedDemoSlug(d: Demo, c: Casing)
    ensures StringOr(Get(EncodeDemo(d, c), "slug").Or(Get(EncodeDemo(d, c), "Slug")), "") == d.slug
  {
  }

  lemma EncodedDemoHtml(d: Demo, c: Casing)
    ensures StringOr(DemoHtml(EncodeDemo(d, c)), "") == d.htmlContent
  {
  }

  lemma EncodedDemoUsers(d: Demo, c: Casing)
    ensures StringList(DemoUsers(EncodeDemo(d, c))) == d.userIds
  {
    StringListOfStrArray(d.userIds);
  }

  lemma EncodedDemoCreatedAt(d: Demo, c: Casing)
    ensures OptionalString(Get(EncodeDemo(d, c), "createdAt").Or(Get(EncodeDemo(d, c), "created_at"))) == d.createdAt
  {
  }

  /** Reading back any demo, in either spelling, gives the demo itself. */
  lemma NormalizeEncodeDemo(d: Demo, c: Casing)
    ensures NormalizeDemo(EncodeDemo(d, c)) == d
  {
    EncodedDemoId(d, c);
    EncodedDemoTitle(d, c);
    EncodedDemoSlug(d, c);
    EncodedDemoHtml(d, c);
    EncodedDemoUsers(d, c);
    EncodedDemoCreatedAt(d, c);
  }

  /** The keys under which a list response may wrap its array, in the order they are tried. */
  const DemoEnvelope: seq<string> := ["demos", "data", "items"]

  /** `toDemoArray(data)`. */
  function ToDemoArray(data: Json): (r: seq<Demo>)
    ensures |r| == |Records(data, DemoEnvelope)|
  {
    var recs := Records(data, DemoEnvelope);
    seq(|recs|, i requires 0 <= i < |recs| => NormalizeDemo(recs[i]))
  }

  /** A bare array is read element by element, in order, dropping elements that are not records. */
  lemma DemosKeepOrder(xs: seq<Json>, ys: seq<Json>)
    ensures ToDemoArray(Arr(xs + ys)) == ToDemoArray(Arr(xs)) + ToDemoArray(Arr(ys))
  {
    ObjectElementsAppend(xs, ys);
  }

  /** An array of encoded demos reads back as those demos. */
  lemma {:induction false} EncodedDemosReadBack(ds: seq<Demo>, c: Casing)
    ensures ToDemoArray(Arr(seq(|ds|, i requires 0 <= i < |ds| => EncodeDemo(ds[i], c)))) == ds
  {
    var xs := seq(|ds|, i requires 0 <= i < |ds| => EncodeDemo(ds[i], c));
    assert forall i :: 0 <= i < |xs| ==> IsObjectLike(xs[i]);
    ObjectElementsOfRecords(xs);
    forall i | 0 <= i < |ds| ensures ToDemoArray(Arr(xs))[i] == ds[i] {
      NormalizeEncodeDemo(ds[i], c);
    }
  }

  /** Each envelope key yields the same demos as the bare array it wraps. */
  lemma DemosOfEnvelope(k: string, xs: seq<Json>)
    requires k in DemoEnvelope
    ensures ToDemoArray(Obj(map[k := Arr(xs)])) == ToDemoArray(Arr(xs))
  {
    EnvelopeUnwrapped(k, xs, DemoEnvelope);
  }

  /**
   * A present `demos` member decides: when it is not an array, the later
   * `data` and `items` members are never looked at and there are no demos.
   */
  lemma DemosMemberDecides(data: Json)
    requires data.Obj? && !Get(data, "demos").Null? && !Get(data, "demos").Arr?
    ensures ToDemoArray(data) == []
  {
    assert Coalesce(data, DemoEnvelope) == Get(data, "demos");
  }

  /** Strings, numbers, booleans and null hold no demos. */
  lemma ScalarHoldsNoDemos(data: Json)
    requires !IsObjectLike(data)
    ensures ToDemoArray(data) == []
  {
  }

  /** What `createDemo` is called with. */
  datatype DemoPayload = DemoPayload(title: string, slug: Option<string>, htmlContent: string, userIds: seq<string>)

  /**
   * The JSON object `createDemo` posts, around the title and the `slug`
   * member it has already worked out: `title`, `slug` when there is one,
   * `htmlContent` and `userIds`.
   */
  function DemoBody(p: DemoPayload, title: string, slug: Option<string>): Json {
    var m := map["title" := Str(title), "htmlContent" := Str(p.htmlContent), "userIds" := StrArray(p.userIds)];
    Obj(if slug.Some? then m["slug" := Str(slug.value)] else m)
  }

  /** The body of the POST `createDemo(p)` sends: the title trimmed, the slug chosen as `RequestSlug` says. */
  function CreateDemoBody(p: DemoPayload): Json {
    DemoBody(p, Trim(p.title), Slug.SentSlug(Slug.RequestSlug(p.slug, p.title, Slug.DemoWord)))
  }

  lemma DemoBodySlugMember(p: DemoPayload, title: string, slug: string)
    ensures Get(DemoBody(p, title, Some(slug)), "slug") == Str(slug)
  {
  }

  /** Every create request carries a slug, the one `RequestSlug` chose. */
  lemma CreateDemoBodyHasSlug(p: DemoPayload)
    ensures Get(CreateDemoBody(p), "slug") == Str(Slug.RequestSlug(p.slug, p.title, Slug.DemoWord))
  {
    Slug.SentRequestSlug(p.slug, p.title, Slug.DemoWord);
    DemoBodySlugMember(p, Trim(p.title), Slug.RequestSlug(p.slug, p.title, Slug.DemoWord));
  }

  // One member of a create body at a time, as the store's own reader sees it.

  lemma DemoBodyTitle(p: DemoPayload, title: string, slug: Option<string>)
    ensures StringOr(Get(DemoBody(p, title, slug), "title").Or(Get(DemoBody(p, title, slug), "Title")), "") == title
  {
  }

  lemma DemoBodySlug(p: DemoPayload, title: string, slug: string)
    ensures StringOr(Get(DemoBody(p, title, Some(slug)), "slug").Or(Get(DemoBody(p, title, Some(slug)), "Slug")), "") == slug
  {
  }

  lemma DemoBodyHtml(p: DemoPayload, title: string, slug: Option<string>)
    ensures StringOr(DemoHtml(DemoBody(p, title, slug)), "") == p.htmlContent
  {
  }

  lemma DemoBodyUsers(p: DemoPayload, title: string, slug: Option<string>)
    ensures StringList(DemoUsers(DemoBody(p, title, slug))) == p.userIds
  {
    StringListOfStrArray(p.userIds);
  }

  lemma DemoBodyNoDate(p: DemoPayload, title: string, slug: Option<string>)
    ensures OptionalString(Get(DemoBody(p, title, slug), "createdAt").Or(Get(DemoBody(p, title, slug), "created_at"))).None?
  {
  }

  /**
   * Read back with the store's own reader, a create body gives the title and
   * slug it carries, the content and the users, and no creation date.
   */
  lemma DemoBodyReadsBack(p: DemoPayload, title: string, slug: string)
    ensures NormalizeDemo(DemoBody(p, title, Some(slug))) == Demo("", title, slug, p.htmlContent, p.userIds, None)
  {
    DemoBodyTitle(p, title, Some(slug));
    DemoBodySlug(p, title, slug);
    DemoBodyHtml(p, title, Some(slug));
    DemoBodyUsers(p, title, Some(slug));
    DemoBodyNoDate(p, title, Some(slug));
    assert Get(DemoBody(p, title, Some(slug)), "id").Null? && Get(DemoBody(p, title, Some(slug)), "Id").Null?;
  }

  /** The request `createDemo(p)` sends reads back as the demo it asks for, under the slug it chose. */
  lemma CreateDemoBodyReadsBack(p: DemoPayload)
    ensures NormalizeDemo(CreateDemoBody(p))
         == Demo("", Trim(p.title), Slug.RequestSlug(p.slug, p.title, Slug.DemoWord), p.htmlContent, p.userIds, None)
  {
    Slug.SentRequestSlug(p.slug, p.title, Slug.DemoWord);
    DemoBodyReadsBack(p, Trim(p.title), Slug.RequestSlug(p.slug, p.title, Slug.DemoWord));
  }

  const DemoLookup: LookupTexts := LookupTexts("You do not have access to this demo.", "Demo not found.", "Failed to load demo")
  const CreateDemoNetworkHint: string := "Network error. Check that the backend is running (POST /api/demos)."

  /** The demos store's state. */
  class DemosStore {
    var demos: seq<Demo>
    var loading: bool
    var error: Option<string>
    var currentDemo: Option<Demo>
    var currentDemoLoading: bool
    var currentDemoError: Option<string>

    constructor()
      ensures demos == [] && !loading && error.None?
      ensures currentDemo.None? && !currentDemoLoading && currentDemoError.None?
    {
      demos := [];
      loading := false;
      error := None;
      currentDemo := None;
      currentDemoLoading := false;
      currentDemoError := None;
    }

    /** `loadDemos()` once the GET has produced `o`. */
    method LoadDemos(o: Outcome, parse: Parser)
      modifies this`demos, this`loading, this`error
      ensures Loaded(demos, error) == LoadCollection(Receive(o, parse), ToDemoArray, "demos", false)
      ensures !loading
    {
      loading := true;
      error := None;
      match Receive(o, parse) {
        case Failed(e) =>
          error := Some(e.message.GetOr(LoadFailedText("demos")));
          demos := [];
        case Unparsable =>
          error := Some(InvalidJson);
          demos := [];
        case Answered(status, statusText, raw) =>
          if !IsOk(status) {
            error := Some(LoadFailureMessage(raw, status, statusText, "demos"));
            demos := [];
          } else {
            demos := ToDemoArray(if raw.Null? then Arr([]) else raw);
          }
      }
      loading := false;
    }

    /** `getDemoBySlug(slug)` once the GET for that slug has produced `o`. */
    method GetDemoBySlug(o: Outcome, parse: Parser)
      modifies this`currentDemo, this`currentDemoLoading, this`currentDemoError
      ensures Fetched(currentDemo, currentDemoError) == LoadRecord(Receive(o, parse), NormalizeDemo, DemoLookup)
      ensures !currentDemoLoading
    {
      currentDemo := None;
      currentDemoError := None;
      currentDemoLoading := true;
      match Receive(o, parse) {
        case Failed(e) =>
          currentDemoError := Some(e.message.GetOr(DemoLookup.failed));
        case Unparsable =>
          currentDemoError := Some(InvalidJson);
        case Answered(status, _, raw) =>
          if !IsOk(status) {
            currentDemoError := LookupFailureMessage(raw, status, DemoLookup);
          } else if IsObjectLike(raw) {
            currentDemo := Some(NormalizeDemo(raw));
          }
      }
      currentDemoLoading := false;
    }

    /**
     * `createDemo(p)` once the POST of `CreateDemoBody(p)` has produced `post`
     * and, when it succeeded, the reload it triggers has produced `reload`.
     * `failure` is the message of the error thrown; a failed create leaves the
     * store as it was.
     */
    method CreateDemo(p: DemoPayload, post: Outcome, reload: Outcome, parse: Parser)
      returns (sent: Json, failure: Option<string>)
      modifies this`demos, this`loading, this`error
      ensures sent == CreateDemoBody(p)
      ensures failure == CreateFailure(Receive(post, parse), CreateDemoNetworkHint)
      ensures failure.Some? ==> unchanged(this)
      ensures failure.None? ==>
        Loaded(demos, error) == LoadCollection(Receive(reload, parse), ToDemoArray, "demos", false) && !loading
    {
      sent := CreateDemoBody(p);
      match Receive(post, parse) {
        case Failed(e) =>
          failure := Some(if IsAbort(e) then CreateTimedOut else e.message.GetOr(CreateDemoNetworkHint));
        case Unparsable =>
          failure := Some(InvalidJson);
        case Answered(status, statusText, raw) =>
          if !IsOk(status) {
            var msg := if HasField(raw, "message") then raw.fields["message"] else Str(statusText);
            failure := Some(if msg.Null? then CreateFailedText(status) else ToJsString(msg));
          } else {
            failure := None;
            LoadDemos(reload, parse);
          }
      }
    }
  }
}
