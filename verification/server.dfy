/**
 * The application's two cross-cutting pieces: the `res.json` wrapper that
 * turns the stored relative upload paths into absolute URLs, and the
 * global error handler that maps upload and filter errors to replies.
 */
module Server {
  import opened Options
  import opened Text
  import opened Json
  import opened Http
  import Profiles

  // ---------------------------------------------------------------- absolute URLs

  /**
   * The base the paths are prefixed with: `FRONTEND_URL` (or the deployed
   * front end when it is unset or empty) in production, the request's own
   * `protocol://host` otherwise.
   */
  function BaseUrl(production: bool, frontendUrl: Option<string>, protocol: string, host: string): string {
    if production then
      if frontendUrl.Some? && frontendUrl.value != "" then frontendUrl.value else "https://nnrgconnect.vercel.app"
    else protocol + "://" + host
  }

  /** The base starts with `http` whenever the protocol is HTTP(S) and a configured front end URL does. */
  lemma BaseUrlIsHttp(production: bool, frontendUrl: Option<string>, protocol: string, host: string)
    requires protocol == "http" || protocol == "https"
    requires frontendUrl.Some? && frontendUrl.value != "" ==> StartsWith(frontendUrl.value, "http")
    ensures StartsWith(BaseUrl(production, frontendUrl, protocol, host), "http")
  {
    if !production {
      StartsWithConcat(protocol, "://" + host);
      assert protocol + "://" + host == protocol + ("://" + host);
      assert StartsWith(protocol, "http");
      StartsWithExtend(protocol, "http", "://" + host);
    } else if !(frontendUrl.Some? && frontendUrl.value != "") {
      assert "https://nnrgconnect.vercel.app"[..4] == "http";
    }
  }

  /** One URL field: a non-empty path that does not start with `http` gets the base in front. */
  function Absolute(v: Json, base: string): (r: Json)
    ensures v.JStr? && v.s != "" && !StartsWith(v.s, "http") ==> r == JStr(base + v.s)
    ensures !(v.JStr? && v.s != "" && !StartsWith(v.s, "http")) ==> r == v
  {
    if v.JStr? && v.s != "" && !StartsWith(v.s, "http") then JStr(base + v.s) else v
  }

  predicate IsUrlKey(key: string) {
    key == "profilePictureUrl" || key == "collegeIdCardImage"
  }

  /** `if (o[key] && ...) o[key] = ...`: an absent key stays absent. */
  function RewriteKey(fields: map<string, Json>, key: string, base: string): (r: map<string, Json>)
    ensures r.Keys == fields.Keys
    ensures key in fields ==> r[key] == Absolute(fields[key], base)
    ensures forall k :: k in fields && k != key ==> r[k] == fields[k]
  {
    if key in fields then fields[key := Absolute(fields[key], base)] else fields
  }

  /**
   * The rewrite of one object: its two URL fields, and nothing else; a
   * value that is not an object is left alone.
   */
  function AbsolutiseItem(item: Json, base: string): (r: Json)
    ensures item.JObj? <==> r.JObj?
    ensures !item.JObj? ==> r == item
    ensures item.JObj? ==> r.fields.Keys == item.fields.Keys
    ensures item.JObj? ==> forall k :: k in item.fields ==>
      r.fields[k] == if IsUrlKey(k) then Absolute(item.fields[k], base) else item.fields[k]
  {
    if item.JObj? then
      JObj(RewriteKey(RewriteKey(item.fields, "profilePictureUrl", base), "collegeIdCardImage", base))
    else item
  }

  /** What the wrapper sends for `data`: an object rewritten, or each element of an array. */
  function Absolutise(data: Json, base: string): (r: Json)
    ensures !data.JObj? && !data.JArr? ==> r == data
    ensures data.JArr? ==> (r.JArr? && |r.items| == |data.items|
      && forall i :: 0 <= i < |data.items| ==> r.items[i] == AbsolutiseItem(data.items[i], base))
  {
    match data
    case JObj(_) => AbsolutiseItem(data, base)
    case JArr(items) => JArr(seq(|items|, i requires 0 <= i < |items| => AbsolutiseItem(items[i], base)))
    case _ => data
  }

  /** The `data.map` loop: every element of the array rewritten in place. */
  method AbsolutiseAll(items: array<Json>, base: string)
    modifies items
    ensures forall i :: 0 <= i < items.Length ==> items[i] == AbsolutiseItem(old(items[i]), base)
  {
    for i := 0 to items.Length
      invariant forall k :: 0 <= k < i ==> items[k] == AbsolutiseItem(old(items[k]), base)
      invariant forall k :: i <= k < items.Length ==> items[k] == old(items[k])
    {
      items[i] := AbsolutiseItem(items[i], base);
    }
  }

  /** The `res.json` wrapper. */
  method SendJson(data: Json, base: string) returns (sent: Json)
    ensures sent == Absolutise(data, base)
  {
    if data.JObj? {
      sent := AbsolutiseItem(data, base);
    } else if data.JArr? {
      var items := new Json[|data.items|](i requires 0 <= i < |data.items| => data.items[i]);
      AbsolutiseAll(items, base);
      sent := JArr(items[..]);
    } else {
      sent := data;
    }
  }

  /** The rule on a single object, stated on its fields: empty paths and absolute URLs stay as they are. */
  lemma ObjectUrlRule(fields: map<string, Json>, key: string, base: string)
    requires IsUrlKey(key) && key in fields
    ensures var r := Absolutise(JObj(fields), base).fields[key];
      && (fields[key] == JStr("") ==> r == JStr(""))
      && (fields[key].JStr? && StartsWith(fields[key].s, "http") ==> r == fields[key])
      && (fields[key].JStr? && fields[key].s != "" && !StartsWith(fields[key].s, "http") ==>
            r == JStr(base + fields[key].s))
  {
  }

  /**
   * In an array only each element's own fields change: an object nested
   * inside an element, such as a listing entry's `user`, is sent as it is.
   */
  lemma NestedObjectsUntouched(items: seq<Json>, i: nat, key: string, base: string)
    requires i < |items| && items[i].JObj? && key in items[i].fields && !IsUrlKey(key)
    ensures Absolutise(JArr(items), base).items[i].fields[key] == items[i].fields[key]
  {
  }

  lemma AbsoluteIdempotent(v: Json, base: string)
    requires StartsWith(base, "http")
    ensures Absolute(Absolute(v, base), base) == Absolute(v, base)
  {
    if v.JStr? && v.s != "" && !StartsWith(v.s, "http") {
      StartsWithExtend(base, "http", v.s);
    }
  }

  lemma AbsolutiseItemIdempotent(item: Json, base: string)
    requires StartsWith(base, "http")
    ensures AbsolutiseItem(AbsolutiseItem(item, base), base) == AbsolutiseItem(item, base)
  {
    if item.JObj? {
      var once := AbsolutiseItem(item, base);
      var twice := AbsolutiseItem(once, base);
      forall k | k in item.fields ensures twice.fields[k] == once.fields[k] {
        if IsUrlKey(k) {
          AbsoluteIdempotent(item.fields[k], base);
        }
      }
      assert twice.fields == once.fields;
    }
  }

  /** With an `http` base, rewriting what was already rewritten changes nothing. */
  lemma AbsolutiseIdempotent(data: Json, base: string)
    requires StartsWith(base, "http")
    ensures Absolutise(Absolutise(data, base), base) == Absolutise(data, base)
  {
    match data
    case JObj(_) => AbsolutiseItemIdempotent(data, base);
    case JArr(items) =>
      var once := Absolutise(data, base);
      var twice := Absolutise(once, base);
      forall i | 0 <= i < |items| ensures twice.items[i] == once.items[i] {
        AbsolutiseItemIdempotent(items[i], base);
      }
      assert twice.items == once.items;
    case _ =>
  }

  // ---------------------------------------------------------------- the global error handler

  /** An error reaching the handler: a Multer error, or any other error with its message. */
  datatype ServerError =
    | MulterError(code: string, field: string, message: string)
    | PlainError(message: string)

  const LegacyImageMessage: string := "Not an image! Please upload an image file."
  const ProfileImageMessage: string := "Only image files (jpg, jpeg, png, gif) are allowed!"
  const UnexpectedMessage: string := "An unexpected error occurred on the server."

  /** The size in the `LIMIT_FILE_SIZE` reply: 2 MB for the profile picture, 5 MB for any other field. */
  function SizeLimitMessage(field: string): string {
    "File is too large. Maximum size is " + (if field == "profilePicture" then "2" else "5") + "MB."
  }

  /** The global error handler as written. */
  function ErrorReply(e: ServerError): (r: Response)
    ensures e.MulterError? ==> r.status == 400
    ensures e.MulterError? && e.code == "LIMIT_FILE_SIZE" ==> r == Message(400, SizeLimitMessage(e.field))
    ensures e.MulterError? && e.code != "LIMIT_FILE_SIZE" ==>
      r == Message(400, "File upload error: " + e.message + " (Code: " + e.code + ")")
    ensures e.PlainError? ==>
      (r.status == 400 <==> e.message == LegacyImageMessage || e.message == ProfileImageMessage)
    ensures e.PlainError? && r.status == 400 ==> r == Message(400, e.message)
    ensures r.status != 400 ==> r == Message(500, UnexpectedMessage)
  {
    match e
    case MulterError(code, field, message) =>
      if code == "LIMIT_FILE_SIZE" then Message(400, SizeLimitMessage(field))
      else Message(400, "File upload error: " + message + " (Code: " + code + ")")
    case PlainError(message) =>
      if message == LegacyImageMessage then Message(400, message)
      else if message == ProfileImageMessage then Message(400, message)
      else Message(500, UnexpectedMessage)
  }

  /**
   * The profile-picture filter's rejections are meant to reach the client
   * as 400 with their message, but neither of its two messages is the one
   * the handler compares against, so each becomes a 500.
   */
  lemma ImageRejectionIs500AsWritten(mimetype: string, originalname: string)
    requires Profiles.ImageFileFilter(mimetype, originalname).Reject?
    ensures ErrorReply(PlainError(Profiles.ImageFileFilter(mimetype, originalname).message))
      == Message(500, UnexpectedMessage)
  {
    assert |Profiles.ImageTypeMessage| != |ProfileImageMessage|;
    assert |Profiles.ImageExtensionMessage| != |ProfileImageMessage|;
    assert |Profiles.ImageTypeMessage| != |LegacyImageMessage|;
    assert |Profiles.ImageExtensionMessage| != |LegacyImageMessage|;
  }

  /** The handler with the profile-picture filter's actual messages recognised. */
  function ErrorReplyCorrected(e: ServerError): (r: Response)
    ensures e.MulterError? ==> r == ErrorReply(e)
    ensures e.PlainError? && e.message != Profiles.ImageTypeMessage && e.message != Profiles.ImageExtensionMessage
      ==> r == ErrorReply(e)
  {
    match e
    case PlainError(message) =>
      if message == Profiles.ImageTypeMessage || message == Profiles.ImageExtensionMessage then Message(400, message)
      else ErrorReply(e)
    case _ => ErrorReply(e)
  }

  /** With the correction, every rejection of the filter reaches the client as 400 with its message. */
  lemma ImageRejectionIs400(mimetype: string, originalname: string)
    requires Profiles.ImageFileFilter(mimetype, originalname).Reject?
    ensures var m := Profiles.ImageFileFilter(mimetype, originalname).message;
      ErrorReplyCorrected(PlainError(m)) == Message(400, m)
  {
  }

  /** The signup filter's legacy message is recognised as written. */
  lemma SignupImageRejectionIs400()
    ensures ErrorReply(PlainError(LegacyImageMessage)) == Message(400, LegacyImageMessage)
  {
  }
}
