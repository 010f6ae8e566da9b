/**
 * The showcase store: the tolerant reader that turns a server record into a
 * `ShowcaseItem`, the envelope unwrapping of list responses, the body of a
 * create request, and the store state after `loadItems`, `getItemBySlug` and
 * `createItem` have received their response.
 */
module Showcase {
  import opened Wrappers
  import opened Text
  import opened Js
  import opened Http
  import Slug

  datatype ShowcaseType = Site | Gallery

  datatype ShowcaseItem = ShowcaseItem(
    id: string,
    kind: ShowcaseType,
    title: string,
    slug: string,
    htmlContent: Option<string>,
    imageUrl: Option<string>,
    imageUrls: seq<string>,
    userIds: seq<string>,
    createdAt: Option<string>)

  /** The name the API uses for a showcase type. */
  function KindName(k: ShowcaseType): string {
    match k
    case Site => "site"
    case Gallery => "gallery"
  }

  /** `type === 'gallery' || type === 'photo'`, with `type = raw.type ?? raw.Type ?? 'site'`. */
  function KindOf(raw: Json): ShowcaseType {
    var t := Get(raw, "type").Or(Get(raw, "Type")).Or(Str("site"));
    if t == Str("gallery") || t == Str("photo") then Gallery else Site
  }

  /** `list.filter(Boolean)` on strings: the non-empty ones, in order. */
  function NonEmptyStrings(xs: seq<string>): (r: seq<string>)
    ensures forall i :: 0 <= i < |r| ==> r[i] != ""
  {
    if xs == [] then []
    else
      var rest := NonEmptyStrings(xs[1..]);
      if xs[0] != "" then [xs[0]] + rest else rest
  }

  /** The filter keeps exactly the non-empty strings of `xs`. */
  lemma {:induction false} NonEmptyStringsMembers(xs: seq<string>, x: string)
    ensures x in NonEmptyStrings(xs) <==> x in xs && x != ""
  {
    if xs != [] {
      NonEmptyStringsMembers(xs[1..], x);
      assert xs == [xs[0]] + xs[1..];
    }
  }

  lemma {:induction false} NonEmptyStringsIdentity(xs: seq<string>)
    requires forall i :: 0 <= i < |xs| ==> xs[i] != ""
    ensures NonEmptyStrings(xs) == xs
  {
    if xs != [] {
      NonEmptyStringsIdentity(xs[1..]);
    }
  }

  /** The legacy single image: `raw.imageUrl ?? raw.image_url`. */
  function LegacyImage(raw: Json): Json {
    Get(raw, "imageUrl").Or(Get(raw, "image_url"))
  }

  /**
   * The gallery images: the non-empty entries of the `imageUrls`/`image_urls`
   * array; when there are none, a legacy single image that is not blank.
   */
  function ImageUrlsOf(raw: Json): seq<string> {
    var listed := NonEmptyStrings(StringList(Get(raw, "imageUrls").Or(Get(raw, "image_urls"))));
    if listed != [] then listed
    else
      var single := LegacyImage(raw);
      if !single.Null? && !IsBlank(ToJsString(single)) then [ToJsString(single)] else []
  }

  /**
   * What every normalised item satisfies: no image entry is empty, and an
   * item without images has no usable legacy image either.
   */
  predicate WellFormedItem(it: ShowcaseItem) {
    && (forall i :: 0 <= i < |it.imageUrls| ==> it.imageUrls[i] != "")
    && (it.imageUrls == [] ==> it.imageUrl.None? || IsBlank(it.imageUrl.value))
  }

  /** `normalizeItem(raw)`. */
  function NormalizeItem(raw: Json): ShowcaseItem {
    ShowcaseItem(
      StringOr(Get(raw, "id").Or(Get(raw, "Id")), ""),
      KindOf(raw),
      StringOr(Get(raw, "title").Or(Get(raw, "Title")), ""),
      StringOr(Get(raw, "slug").Or(Get(raw, "Slug")), ""),
      OptionalString(Get(raw, "htmlContent").Or(Get(raw, "html_content"))),
      OptionalString(LegacyImage(raw)),
      ImageUrlsOf(raw),
      StringList(Get(raw, "userIds").Or(Get(raw, "user_ids"))),
      OptionalString(Get(raw, "createdAt").Or(Get(raw, "created_at"))))
  }

  /** Whatever the server sends, the item read from it is well formed. */
  lemma NormalizedItemWellFormed(raw: Json)
    ensures WellFormedItem(NormalizeItem(raw))
  {
    var listed := NonEmptyStrings(StringList(Get(raw, "imageUrls").Or(Get(raw, "image_urls"))));
    if listed == [] {
      var single := LegacyImage(raw);
      if !single.Null? && !IsBlank(ToJsString(single)) {
        assert ToJsString(single) != "";
      }
    }
  }

  /** The item every key-less record (or non-object) reads as. */
  const EmptyItem: ShowcaseItem := ShowcaseItem("", Site, "", "", None, None, [], [], None)

  const ItemKeys: seq<string> := [
    "id", "Id", "type", "Type", "title", "Title", "slug", "Slug", "htmlContent", "html_content",
    "imageUrl", "image_url", "imageUrls", "image_urls", "userIds", "user_ids", "createdAt", "created_at"]

  /** Missing or null members take their defaults: `''`, `'site'`, `[]` or undefined. */
  lemma ItemDefaults(raw: Json)
    requires forall i :: 0 <= i < |ItemKeys| ==> Get(raw, ItemKeys[i]).Null?
    ensures NormalizeItem(raw) == EmptyItem
  {
    assert Get(raw, ItemKeys[0]).Null? && Get(raw, ItemKeys[1]).Null?;
    assert Get(raw, ItemKeys[2]).Null? && Get(raw, ItemKeys[3]).Null?;
    assert Get(raw, ItemKeys[4]).Null? && Get(raw, ItemKeys[5]).Null?;
    assert Get(raw, ItemKeys[6]).Null? && Get(raw, ItemKeys[7]).Null?;
    assert Get(raw, ItemKeys[8]).Null? && Get(raw, ItemKeys[9]).Null?;
    assert Get(raw, ItemKeys[10]).Null? && Get(raw, ItemKeys[11]).Null?;
    assert Get(raw, ItemKeys[12]).Null? && Get(raw, ItemKeys[13]).Null?;
    assert Get(raw, ItemKeys[14]).Null? && Get(raw, ItemKeys[15]).Null?;
    assert Get(raw, ItemKeys[16]).Null? && Get(raw, ItemKeys[17]).Null?;
  }

  /**
   * The type: a `type` member decides alone when it is present, `Type` only
   * when `type` is null or missing; only `'gallery'` and `'photo'` make a
   * gallery.
   */
  lemma KindPrecedence(raw: Json)
    ensures !Get(raw, "type").Null? ==>
      (NormalizeItem(raw).kind == Gallery <==> Get(raw, "type") in {Str("gallery"), Str("photo")})
    ensures Get(raw, "type").Null? ==>
      (NormalizeItem(raw).kind == Gallery <==> Get(raw, "Type") in {Str("gallery"), Str("photo")})
  {
    var t := Get(raw, "type").Or(Get(raw, "Type"));
    if !Get(raw, "type").Null? {
      assert t == Get(raw, "type");
    } else if !Get(raw, "Type").Null? {
      assert t == Get(raw, "Type");
    } else {
      assert t.Null?;
    }
  }

  /** Non-empty entries of the image list win over the legacy single image. */
  lemma ListedImagesWin(raw: Json, xs: seq<string>)
    requires Get(raw, "imageUrls").Or(Get(raw, "image_urls")) == StrArray(xs)
    requires exists i :: 0 <= i < |xs| && xs[i] != ""
    ensures NormalizeItem(raw).imageUrls == NonEmptyStrings(xs)
  {
    ListedImagesOf(raw, xs);
    ItemImages(raw);
  }

  lemma ListedImagesOf(raw: Json, xs: seq<string>)
    requires Get(raw, "imageUrls").Or(Get(raw, "image_urls")) == StrArray(xs)
    requires exists i :: 0 <= i < |xs| && xs[i] != ""
    ensures ImageUrlsOf(raw) == NonEmptyStrings(xs)
  {
    StringListOfStrArray(xs);
    var i :| 0 <= i < |xs| && xs[i] != "";
    NonEmptyStringsMembers(xs, xs[i]);
  }

  lemma ItemImages(raw: Json)
    ensures NormalizeItem(raw).imageUrls == ImageUrlsOf(raw)
  {
  }

  /**
   * Without usable list entries, a legacy image that is not blank becomes
   * the only entry, untrimmed, and is also kept as `imageUrl`.
   */
  lemma LegacyImageAdopted(raw: Json, url: string)
    requires NonEmptyStrings(StringList(Get(raw, "imageUrls").Or(Get(raw, "image_urls")))) == []
    requires LegacyImage(raw) == Str(url) && !IsBlank(url)
    ensures NormalizeItem(raw).imageUrls == [url]
    ensures NormalizeItem(raw).imageUrl == Some(url)
  {
  }

  /**
   * An item written as the server would send it, using either the camelCase
   * names or the alternate spelling the reader accepts for each member.
   */
  function EncodeItem(it: ShowcaseItem, c: Casing): Json {
    var base := map[
      Key(c, "id", "Id") := Str(it.id),
      Key(c, "type", "Type") := Str(KindName(it.kind)),
      Key(c, "title", "Title") := Str(it.title),
      Key(c, "slug", "Slug") := Str(it.slug),
      Key(c, "imageUrls", "image_urls") := StrArray(it.imageUrls),
      Key(c, "userIds", "user_ids") := StrArray(it.userIds)];
    var m1 := WithOptional(base, Key(c, "htmlContent", "html_content"), it.htmlContent);
    var m2 := WithOptional(m1, Key(c, "imageUrl", "image_url"), it.imageUrl);
    Obj(WithOptional(m2, Key(c, "createdAt", "created_at"), it.createdAt))
  }

  // One member of an encoded item at a time: each reads back as the field it was written from.

  lemma EncodedId(it: ShowcaseItem, c: Casing)
    ensures StringOr(Get(EncodeItem(it, c), "id").Or(Get(EncodeItem(it, c), "Id")), "") == it.id
  {
  }

  lemma EncodedKind(it: ShowcaseItem, c: Casing)
    ensures KindOf(EncodeItem(it, c)) == it.kind
  {
  }

  lemma EncodedTitle(it: ShowcaseItem, c: Casing)
    ensures StringOr(Get(EncodeItem(it, c), "title").Or(Get(EncodeItem(it, c), "Title")), "") == it.title
  {
  }

  lemma EncodedSlug(it: ShowcaseItem, c: Casing)
    ensures StringOr(Get(EncodeItem(it, c), "slug").Or(Get(EncodeItem(it, c), "Slug")), "") == it.slug
  {
  }

  lemma EncodedHtml(it: ShowcaseItem, c: Casing)
    ensures OptionalString(Get(EncodeItem(it, c), "htmlContent").Or(Get(EncodeItem(it, c), "html_content"))) == it.htmlContent
  {
  }

  lemma EncodedImage(it: ShowcaseItem, c: Casing)
    ensures LegacyImage(EncodeItem(it, c)) == if it.imageUrl.Some? then Str(it.imageUrl.value) else Null
  {
  }

  lemma EncodedImageList(it: ShowcaseItem, c: Casing)
    ensures Get(EncodeItem(it, c), "imageUrls").Or(Get(EncodeItem(it, c), "image_urls")) == StrArray(it.imageUrls)
  {
  }

  lemma EncodedUsers(it: ShowcaseItem, c: Casing)
    ensures StringList(Get(EncodeItem(it, c), "userIds").Or(Get(EncodeItem(it, c), "user_ids"))) == it.userIds
  {
    StringListOfStrArray(it.userIds);
  }

  lemma EncodedCreatedAt(it: ShowcaseItem, c: Casing)
    ensures OptionalString(Get(EncodeItem(it, c), "createdAt").Or(Get(EncodeItem(it, c), "created_at"))) == it.createdAt
  {
  }

  /** The images of a well-formed item survive encoding: the list when it has entries, else nothing. */
  lemma EncodedImages(it: ShowcaseItem, c: Casing)
    requires WellFormedItem(it)
    ensures ImageUrlsOf(EncodeItem(it, c)) == it.imageUrls
  {
    EncodedImageList(it, c);
    EncodedImage(it, c);
    StringListOfStrArray(it.imageUrls);
    NonEmptyStringsIdentity(it.imageUrls);
  }

  /** Reading back a well-formed item, in either spelling, gives the item itself. */
  lemma NormalizeEncodeItem(it: ShowcaseItem, c: Casing)
    requires WellFormedItem(it)
    ensures NormalizeItem(EncodeItem(it, c)) == it
  {
    EncodedId(it, c);
    EncodedKind(it, c);
    EncodedTitle(it, c);
    EncodedSlug(it, c);
    EncodedHtml(it, c);
    EncodedImage(it, c);
    EncodedImages(it, c);
    EncodedUsers(it, c);
    EncodedCreatedAt(it, c);
  }

  /** The keys under which a list response may wrap its array, in the order they are tried. */
  const ItemEnvelope: seq<string> := ["items", "showcase", "data", "demos"]

  /** `toItemArray(data)`. */
  function ToItemArray(data: Json): (r: seq<ShowcaseItem>)
    ensures |r| == |Records(data, ItemEnvelope)|
  {
    var recs := Records(data, ItemEnvelope);
    seq(|recs|, i requires 0 <= i < |recs| => NormalizeItem(recs[i]))
  }

  /** Every item of a list response is well formed. */
  lemma LoadedItemsWellFormed(data: Json)
    ensures forall i :: 0 <= i < |ToItemArray(data)| ==> WellFormedItem(ToItemArray(data)[i])
  {
    var recs := Records(data, ItemEnvelope);
    forall i | 0 <= i < |ToItemArray(data)| ensures WellFormedItem(ToItemArray(data)[i]) {
      NormalizedItemWellFormed(recs[i]);
    }
  }

  /** A bare array is read element by element, in order, dropping elements that are not records. */
  lemma ItemsKeepOrder(xs: seq<Json>, ys: seq<Json>)
    ensures ToItemArray(Arr(xs + ys)) == ToItemArray(Arr(xs)) + ToItemArray(Arr(ys))
  {
    ObjectElementsAppend(xs, ys);
    var a := ObjectElements(xs);
    var b := ObjectElements(ys);
    assert Records(Arr(xs + ys), ItemEnvelope) == a + b;
    var l := ToItemArray(Arr(xs + ys));
    var l1 := ToItemArray(Arr(xs));
    var l2 := ToItemArray(Arr(ys));
    forall i | 0 <= i < |l| ensures l[i] == (l1 + l2)[i] {
      if i < |a| {
        assert l[i] == NormalizeItem(a[i]) == l1[i];
      } else {
        assert l[i] == NormalizeItem(b[i - |a|]) == l2[i - |a|];
      }
    }
  }

  /** Each envelope key yields the same items as the bare array it wraps. */
  lemma ItemsOfEnvelope(k: string, xs: seq<Json>)
    requires k in ItemEnvelope
    ensures ToItemArray(Obj(map[k := Arr(xs)])) == ToItemArray(Arr(xs))
  {
    EnvelopeUnwrapped(k, xs, ItemEnvelope);
  }

  /** A non-null `items` member that is not an array hides every later envelope key. */
  lemma FirstEnvelopeKeyDecides(data: Json)
    requires data.Obj? && !Get(data, "items").Null? && !Get(data, "items").Arr?
    ensures ToItemArray(data) == []
  {
    assert Coalesce(data, ItemEnvelope) == Get(data, "items");
  }

  /** Strings, numbers, booleans and null hold no items. */
  lemma ScalarHoldsNoItems(data: Json)
    requires !IsObjectLike(data)
    ensures ToItemArray(data) == []
  {
  }

  /** What `createItem` is called with. */
  datatype ItemPayload = ItemPayload(
    kind: ShowcaseType,
    title: string,
    slug: Option<string>,
    htmlContent: Option<string>,
    imageUrls: Option<seq<string>>,
    userIds: seq<string>)

  /**
   * The JSON object `createItem` posts, around the title and the `slug`
   * member it has already worked out: `type`, `title`, `slug` when there is
   * one, `userIds`, and `htmlContent` for a site or `imageUrls` for a gallery.
   */
  function ItemBody(p: ItemPayload, title: string, slug: Option<string>): Json {
    var m := map["type" := Str(KindName(p.kind)), "title" := Str(title), "userIds" := StrArray(p.userIds)];
    var withSlug := if slug.Some? then m["slug" := Str(slug.value)] else m;
    if p.kind == Site then Obj(withSlug["htmlContent" := Str(p.htmlContent.GetOr(""))])
    else Obj(withSlug["imageUrls" := StrArray(p.imageUrls.GetOr([]))])
  }

  /** The body of the POST `createItem(p)` sends: the title trimmed, the slug chosen as `RequestSlug` says. */
  function CreateItemBody(p: ItemPayload): Json {
    ItemBody(p, Trim(p.title), Slug.SentSlug(Slug.RequestSlug(p.slug, p.title, Slug.ItemWord)))
  }

  /** Every create request carries a slug, the one `RequestSlug` chose. */
  lemma CreateBodyHasSlug(p: ItemPayload)
    ensures Get(CreateItemBody(p), "slug") == Str(Slug.RequestSlug(p.slug, p.title, Slug.ItemWord))
  {
    var s := Slug.RequestSlug(p.slug, p.title, Slug.ItemWord);
    Slug.SentRequestSlug(p.slug, p.title, Slug.ItemWord);
    BodySlugMember(p, Trim(p.title), s);
  }

  lemma BodySlugMember(p: ItemPayload, title: string, slug: string)
    ensures Get(ItemBody(p, title, Some(slug)), "slug") == Str(slug)
  {
  }

  // One member of a create body at a time, as the store's own reader sees it.

  lemma BodyKind(p: ItemPayload, title: string, slug: Option<string>)
    ensures KindOf(ItemBody(p, title, slug)) == p.kind
  {
  }

  lemma BodyTitle(p: ItemPayload, title: string, slug: Option<string>)
    ensures StringOr(Get(ItemBody(p, title, slug), "title").Or(Get(ItemBody(p, title, slug), "Title")), "") == title
  {
  }

  lemma BodySlug(p: ItemPayload, title: string, slug: string)
    ensures StringOr(Get(ItemBody(p, title, Some(slug)), "slug").Or(Get(ItemBody(p, title, Some(slug)), "Slug")), "") == slug
  {
  }

  lemma BodyUsers(p: ItemPayload, title: string, slug: Option<string>)
    ensures StringList(Get(ItemBody(p, title, slug), "userIds").Or(Get(ItemBody(p, title, slug), "user_ids"))) == p.userIds
  {
    StringListOfStrArray(p.userIds);
  }

  lemma BodyHtml(p: ItemPayload, title: string, slug: Option<string>)
    ensures OptionalString(Get(ItemBody(p, title, slug), "htmlContent").Or(Get(ItemBody(p, title, slug), "html_content")))
         == if p.kind == Site then Some(p.htmlContent.GetOr("")) else None
  {
  }

  lemma BodyNoLegacyImage(p: ItemPayload, title: string, slug: Option<string>)
    ensures LegacyImage(ItemBody(p, title, slug)).Null?
  {
  }

  lemma BodyImageList(p: ItemPayload, title: string, slug: Option<string>)
    ensures Get(ItemBody(p, title, slug), "imageUrls").Or(Get(ItemBody(p, title, slug), "image_urls"))
         == if p.kind == Gallery then StrArray(p.imageUrls.GetOr([])) else Null
  {
  }

  lemma BodyImages(p: ItemPayload, title: string, slug: Option<string>)
    ensures ImageUrlsOf(ItemBody(p, title, slug)) == if p.kind == Gallery then NonEmptyStrings(p.imageUrls.GetOr([])) else []
  {
    BodyImageList(p, title, slug);
    BodyNoLegacyImage(p, title, slug);
    StringListOfStrArray(p.imageUrls.GetOr([]));
  }

  /**
   * Read back with the store's own reader, a create body gives the requested
   * type, the title and slug it carries, the users, and the content or the
   * non-empty images that belong to that type.
   */
  lemma ItemBodyReadsBack(p: ItemPayload, title: string, slug: string)
    ensures var it := NormalizeItem(ItemBody(p, title, Some(slug)));
      && it.kind == p.kind
      && it.title == title
      && it.slug == slug
      && it.userIds == p.userIds
      && it.htmlContent == (if p.kind == Site then Some(p.htmlContent.GetOr("")) else None)
      && it.imageUrls == (if p.kind == Gallery then NonEmptyStrings(p.imageUrls.GetOr([])) else [])
      && it.imageUrl.None?
  {
    BodyKind(p, title, Some(slug));
    BodyTitle(p, title, Some(slug));
    BodySlug(p, title, slug);
    BodyUsers(p, title, Some(slug));
    BodyHtml(p, title, Some(slug));
    BodyNoLegacyImage(p, title, Some(slug));
    BodyImages(p, title, Some(slug));
  }

  /** The request `createItem(p)` sends reads back as the item it asks for, under the slug it chose. */
  lemma CreateBodyReadsBack(p: ItemPayload)
    ensures var it := NormalizeItem(CreateItemBody(p));
      && it.kind == p.kind && it.title == Trim(p.title) && it.userIds == p.userIds
      && it.slug == Slug.RequestSlug(p.slug, p.title, Slug.ItemWord)
  {
    Slug.SentRequestSlug(p.slug, p.title, Slug.ItemWord);
    ItemBodyReadsBack(p, Trim(p.title), Slug.RequestSlug(p.slug, p.title, Slug.ItemWord));
  }

  const ItemLookup: LookupTexts := LookupTexts("You do not have access to this item.", "Not found.", "Failed to load")
  const CreateItemNetworkHint: string := "Network error. Check that the backend is running (POST /api/showcase)."

  /** The showcase store's state. */
  class ShowcaseStore {
    var items: seq<ShowcaseItem>
    var loading: bool
    var error: Option<string>
    var currentItem: Option<ShowcaseItem>
    var currentItemLoading: bool
    var currentItemError: Option<string>

    constructor()
      ensures items == [] && !loading && error.None?
      ensures currentItem.None? && !currentItemLoading && currentItemError.None?
    {
      items := [];
      loading := false;
      error := None;
      currentItem := None;
      currentItemLoading := false;
      currentItemError := None;
    }

    /** `loadItems()` once the GET has produced `o`. */
    method LoadItems(o: Outcome, parse: Parser)
      modifies this`items, this`loading, this`error
      ensures Loaded(items, error) == LoadCollection(Receive(o, parse), ToItemArray, "showcase", false)
      ensures !loading
    {
      loading := true;
      error := None;
      match Receive(o, parse) {
        case Failed(e) =>
          error := Some(e.message.GetOr(LoadFailedText("showcase")));
          items := [];
        case Unparsable =>
          error := Some(InvalidJson);
          items := [];
        case Answered(status, statusText, raw) =>
          if !IsOk(status) {
            error := Some(LoadFailureMessage(raw, status, statusText, "showcase"));
            items := [];
          } else {
            items := ToItemArray(if raw.Null? then Arr([]) else raw);
          }
      }
      loading := false;
    }

    /** `getItemBySlug(slug)` once the GET for that slug has produced `o`. */
    method GetItemBySlug(o: Outcome, parse: Parser)
      modifies this`currentItem, this`currentItemLoading, this`currentItemError
      ensures Fetched(currentItem, currentItemError) == LoadRecord(Receive(o, parse), NormalizeItem, ItemLookup)
      ensures !currentItemLoading
    {
      currentItem := None;
      currentItemError := None;
      currentItemLoading := true;
      match Receive(o, parse) {
        case Failed(e) =>
          currentItemError := Some(e.message.GetOr(ItemLookup.failed));
        case Unparsable =>
          currentItemError := Some(InvalidJson);
        case Answered(status, _, raw) =>
          if !IsOk(status) {
            currentItemError := LookupFailureMessage(raw, status, ItemLookup);
          } else if IsObjectLike(raw) {
            currentItem := Some(NormalizeItem(raw));
          }
      }
      currentItemLoading := false;
    }

    /**
     * `createItem(p)` once the POST of `CreateItemBody(p)` has produced `post`
     * and, when it succeeded, the reload it triggers has produced `reload`.
     * `failure` is the message of the error thrown; a failed create leaves the
     * store as it was.
     */
    method CreateItem(p: ItemPayload, post: Outcome, reload: Outcome, parse: Parser)
      returns (sent: Json, failure: Option<string>)
      modifies this`items, this`loading, this`error
      ensures sent == CreateItemBody(p)
      ensures failure == CreateFailure(Receive(post, parse), CreateItemNetworkHint)
      ensures failure.Some? ==> unchanged(this)
      ensures failure.None? ==>
        Loaded(items, error) == LoadCollection(Receive(reload, parse), ToItemArray, "showcase", false) && !loading
    {
      sent := CreateItemBody(p);
      match Receive(post, parse) {
        case Failed(e) =>
          failure := Some(if IsAbort(e) then CreateTimedOut else e.message.GetOr(CreateItemNetworkHint));
          return;
        case Unparsable =>
          failure := Some(InvalidJson);
          return;
        case Answered(status, statusText, raw) =>
          if !IsOk(status) {
            var msg := if HasField(raw, "message") then raw.fields["message"] else Str(statusText);
            failure := Some(if msg.Null? then CreateFailedText(status) else ToJsString(msg));
            return;
          }
      }
      failure := None;
      LoadItems(reload, parse);
    }
  }
}
