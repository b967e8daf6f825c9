/**
 * The pure pieces of the handlers: MIME classification, file extensions and
 * storage keys for uploads, invitation codes for private circles, share-link
 * expiry and the administrator's self-check.
 */
module Helpers {
  import opened Errors
  import opened Text
  import opened Schema

  // -------------------------------------------------------------- input shape

  /** The error a request gets when its input fails validation. */
  const InvalidInput := Error(BadRequest, "Invalid input")

  /**
   * `z.string().min(1).max(255)`, counted in UTF-16 code units: a nonempty
   * name of at most 127 characters always passes, one of more than 255 never.
   */
  predicate NameInRange(name: string)
    ensures NameInRange(name) ==> 1 <= |name| <= 255
    ensures 1 <= |name| <= 127 ==> NameInRange(name)
  {
    1 <= Utf16Length(name) <= 255
  }

  /** `z.string().min(1).max(64)`, counted in UTF-16 code units like NameInRange. */
  predicate CodeInRange(code: string)
    ensures CodeInRange(code) ==> 1 <= |code| <= 64
    ensures 1 <= |code| <= 32 ==> CodeInRange(code)
  {
    1 <= Utf16Length(code) <= 64
  }

  /** `z.boolean().default(true)`: a circle is public unless the request says otherwise. */
  function PublicOrDefault(isPublic: Option<bool>): (b: bool)
    ensures b <==> isPublic != Some(false)
  {
    if isPublic.Some? then isPublic.value else true
  }

  /** `text || null`: an absent or empty string is stored as null. */
  function NullIfEmpty(text: Option<string>): (r: Option<string>)
    ensures r.None? <==> text.None? || text.value == ""
    ensures r.Some? ==> r == text
  {
    if text.Some? && text.value != "" then text else None
  }

  /** `folderId || null`: folder 0 is no folder. */
  function FolderOrNull(folderId: Option<int>): (r: Option<int>)
    ensures r.None? <==> folderId.None? || folderId.value == 0
    ensures r.Some? ==> r == folderId
  {
    if folderId.Some? && folderId.value != 0 then folderId else None
  }

  // ---------------------------------------------------------------- fileType

  /** The `fileType` if-chain of the upload handler: None is "Unsupported file type". */
  function ClassifyMime(mimeType: string): (r: Option<FileType>)
    ensures r == Some(Video) <==> StartsWith(mimeType, "video/")
    ensures r == Some(Audio) <==> StartsWith(mimeType, "audio/")
    ensures r == Some(Image) <==> StartsWith(mimeType, "image/")
    ensures r == None <==>
      !StartsWith(mimeType, "video/") && !StartsWith(mimeType, "audio/") && !StartsWith(mimeType, "image/")
  {
    if StartsWith(mimeType, "video/") then
      Some(Video)
    else if StartsWith(mimeType, "audio/") then
      Some(Audio)
    else if StartsWith(mimeType, "image/") then
      Some(Image)
    else
      None
  }

  // --------------------------------------------------------------- extension

  /** `filename.split(".").pop() || "bin"`. */
  function FileExtension(filename: string): (ext: string)
    ensures ext != ""
    ensures '.' !in ext
  {
    var parts := Split(filename, '.');
    var last := parts[|parts| - 1];
    if last == "" then "bin" else last
  }

  /** The text after the last dot of `s`, computed from the end (all of `s` if it has no dot). */
  function TextAfterLastDot(s: string): string {
    if |s| == 0 || s[|s| - 1] == '.' then "" else TextAfterLastDot(s[..|s| - 1]) + [s[|s| - 1]]
  }

  /** Any split of `s` into an empty-or-dot-terminated prefix and a dot-free tail has that tail. */
  lemma {:induction false} DotFreeTailIsUnique(s: string, prefix: string, tail: string)
    requires s == prefix + tail
    requires '.' !in tail
    requires prefix == "" || prefix[|prefix| - 1] == '.'
    ensures tail == TextAfterLastDot(s)
  {
    if tail != "" {
      var n := |s|;
      assert s[n - 1] == tail[|tail| - 1];
      assert s[..n - 1] == prefix + tail[..|tail| - 1];
      DotFreeTailIsUnique(s[..n - 1], prefix, tail[..|tail| - 1]);
      assert tail == tail[..|tail| - 1] + [tail[|tail| - 1]];
    } else {
      assert prefix == s;
    }
  }

  /**
   * The extension is the text after the last dot (the whole name when there
   * is none), or "bin" when that text is empty: for every way of writing the
   * name as a prefix that is empty or ends in a dot, followed by a dot-free tail.
   */
  lemma ExtensionIsTextAfterLastDot(filename: string, prefix: string, tail: string)
    requires filename == prefix + tail
    requires '.' !in tail
    requires prefix == "" || prefix[|prefix| - 1] == '.'
    ensures FileExtension(filename) == if tail == "" then "bin" else tail
  {
    var parts := Split(filename, '.');
    var last := parts[|parts| - 1];
    DotFreeTailIsUnique(filename, prefix, tail);
    if |parts| == 1 {
      DotFreeTailIsUnique(filename, "", last);
    } else {
      JoinLast(parts, '.');
      DotFreeTailIsUnique(filename, Join(parts[..|parts| - 1], '.') + ['.'], last);
    }
  }

  // ------------------------------------------------------------- storage key

  /** The 64-character URL-safe alphabet of nanoid's default 21-character ids. */
  const NanoIdAlphabet := "ABCDEFGHIJKLMNOPQRSTUVWXYZabcdefghijklmnopqrstuvwxyz0123456789_-"

  predicate IsNanoId(s: string) {
    |s| == 21 && forall i :: 0 <= i < |s| ==> s[i] in NanoIdAlphabet
  }

  /** The storage key `circles/{circleId}/{uploaderId}-{nanoid}.{ext}`. */
  function FileKey(circleId: nat, uploaderId: nat, nanoId: string, ext: string): (key: string)
    ensures StartsWith(key, "circles/" + NatToString(circleId) + "/")
  {
    var dir := "circles/" + NatToString(circleId) + "/";
    var key := dir + NatToString(uploaderId) + "-" + nanoId + "." + ext;
    assert key[..|dir|] == dir;
    key
  }

  /** The prefix of a file key before its extension. */
  function KeyStem(circleId: nat, uploaderId: nat, nanoId: string): string {
    "circles/" + NatToString(circleId) + "/" + NatToString(uploaderId) + "-" + nanoId + "."
  }

  /** A stored key carries the uploaded file's extension: reading it back gives the same extension. */
  lemma KeyKeepsExtension(circleId: nat, uploaderId: nat, nanoId: string, filename: string)
    ensures FileExtension(FileKey(circleId, uploaderId, nanoId, FileExtension(filename))) == FileExtension(filename)
  {
    var ext := FileExtension(filename);
    var stem := KeyStem(circleId, uploaderId, nanoId);
    assert FileKey(circleId, uploaderId, nanoId, ext) == stem + ext;
    ExtensionIsTextAfterLastDot(stem + ext, stem, ext);
  }

  /** Keys of different circles lie under different directories. */
  lemma KeyDirectoryNamesCircle(c1: nat, c2: nat)
    requires "circles/" + NatToString(c1) + "/" == "circles/" + NatToString(c2) + "/"
    ensures c1 == c2
  {
    var s1, s2 := NatToString(c1), NatToString(c2);
    assert s1 == ("circles/" + s1 + "/")[8..8 + |s1|];
    assert s2 == ("circles/" + s2 + "/")[8..8 + |s2|];
    NatToStringInjective(c1, c2);
  }

  // -------------------------------------------------------- invitation codes

  const CodeAlphabet := "ABCDEFGHIJKLMNOPQRSTUVWXYZ0123456789"
  const CodeLength := 8

  /** The shape of an invitation code: 8 characters over [A-Z0-9]. */
  predicate IsInvitationCode(code: string) {
    |code| == CodeLength && forall i :: 0 <= i < |code| ==> code[i] in CodeAlphabet
  }

  /** A value of `Math.random()`: a number in [0, 1). */
  predicate IsRandomDraw(r: real) {
    0.0 <= r < 1.0
  }

  /** `chars.charAt(Math.floor(r * chars.length))`. */
  function PickCodeChar(r: real): (c: char)
    requires IsRandomDraw(r)
    ensures c in CodeAlphabet
  {
    assert |CodeAlphabet| == 36;
    CodeAlphabet[(r * 36.0).Floor]
  }

  /** One character per draw, in order, joined. */
  function CodeFromDraws(draws: seq<real>): (code: string)
    requires forall i :: 0 <= i < |draws| ==> IsRandomDraw(draws[i])
    ensures |code| == |draws|
    ensures forall i :: 0 <= i < |code| ==> code[i] == PickCodeChar(draws[i])
  {
    if |draws| == 0 then "" else [PickCodeChar(draws[0])] + CodeFromDraws(draws[1..])
  }

  /** The code a private circle gets from eight `Math.random()` draws. */
  function GenerateInvitationCode(draws: seq<real>): (code: string)
    requires |draws| == CodeLength
    requires forall i :: 0 <= i < |draws| ==> IsRandomDraw(draws[i])
    ensures IsInvitationCode(code)
  {
    CodeFromDraws(draws)
  }

  /** The draw that picks alphabet position k. */
  lemma DrawForIndex(k: nat)
    requires k < |CodeAlphabet|
    ensures IsRandomDraw(k as real / 36.0)
    ensures PickCodeChar(k as real / 36.0) == CodeAlphabet[k]
  {
    var r := k as real / 36.0;
    assert r * 36.0 == k as real;
    assert (r * 36.0).Floor == k;
  }

  /** Every well-shaped code can be drawn: the generator reaches the whole code space. */
  lemma EveryCodeCanBeDrawn(code: string)
    requires IsInvitationCode(code)
    ensures exists draws: seq<real> ::
      |draws| == CodeLength && (forall i :: 0 <= i < |draws| ==> IsRandomDraw(draws[i]))
      && GenerateInvitationCode(draws) == code
  {
    var idx := seq(|code|, i requires 0 <= i < |code| => IndexIn(CodeAlphabet, code[i]));
    var draws := seq(|code|, i requires 0 <= i < |code| => idx[i] as real / 36.0);
    forall i | 0 <= i < |draws|
      ensures IsRandomDraw(draws[i]) && PickCodeChar(draws[i]) == code[i]
    {
      DrawForIndex(idx[i]);
    }
    assert GenerateInvitationCode(draws) == code;
  }

  /** The position of a character in a string that contains it. */
  function IndexIn(s: string, c: char): (k: nat)
    requires c in s
    ensures k < |s| && s[k] == c
  {
    if s[0] == c then 0 else 1 + IndexIn(s[1..], c)
  }

  // ------------------------------------------------------------- share links

  /** A row of file_share_links (its table definition is not part of this model). */
  datatype ShareLink = ShareLink(fileId: int, token: string, expiresAt: Option<int>, downloadCount: nat)

  /** `link.expiresAt && new Date(link.expiresAt) < new Date()`, with the clock passed in. */
  predicate IsExpired(link: ShareLink, now: int)
    ensures link.expiresAt.None? ==> !IsExpired(link, now)
    ensures link.expiresAt.Some? ==> (IsExpired(link, now) <==> link.expiresAt.value < now)
  {
    link.expiresAt.Some? && link.expiresAt.value < now
  }

  /** Expiry is permanent, and a link without an expiry date never expires. */
  lemma ExpiryIsMonotone(link: ShareLink, now: int, later: int)
    requires now <= later
    ensures IsExpired(link, now) ==> IsExpired(link, later)
    ensures link.expiresAt.None? ==> !IsExpired(link, later)
    ensures link.expiresAt.Some? ==> (IsExpired(link, later) <==> link.expiresAt.value < later)
  {
  }

  // --------------------------------------------------------------- admin gate

  /**
   * The checks of admin.disableUser before it calls into the database: the
   * caller must be an administrator and must not name themself.
   */
  function DisableUserCheck(callerId: int, callerRole: UserRole, targetId: int): (r: Result<Success>)
    ensures r.Ok? <==> callerRole == Admin && targetId != callerId
    ensures callerRole != Admin ==> r == Err(Error(Forbidden, "Admin access required"))
    ensures callerRole == Admin && targetId == callerId ==> r == Err(Error(BadRequest, "Cannot disable yourself"))
  {
    if callerRole != Admin then Err(Error(Forbidden, "Admin access required"))
    else if targetId == callerId then Err(Error(BadRequest, "Cannot disable yourself"))
    else Ok(Success)
  }
}
