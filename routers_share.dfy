/**
 * fileShare.getByToken, the public read of a share link. The link table is not
 * part of this model: the row the token finds is an input, and so is the clock.
 */
module FileShareRouter {
  import opened Errors
  import opened Schema
  import opened Helpers
  import opened Db

  /** fileShare.getByToken: an unexpired link yields its file (which may since have been deleted). */
  method GetByToken(db: Store, link: Option<ShareLink>, now: int) returns (r: Result<(Option<File>, ShareLink)>)
    ensures link.None? ==> r == Err(Error(NotFound, "Share link not found"))
    ensures link.Some? && IsExpired(link.value, now) ==> r == Err(Error(BadRequest, "Share link has expired"))
    ensures r.Ok? <==> link.Some? && !IsExpired(link.value, now)
    ensures r.Ok? ==> r.value.1 == link.value
    ensures r.Ok? ==> r.value.0 == if link.value.fileId in db.files then Some(db.files[link.value.fileId]) else None
  {
    if link.None? {
      return Err(Error(NotFound, "Share link not found"));
    }
    if IsExpired(link.value, now) {
      return Err(Error(BadRequest, "Share link has expired"));
    }
    var file := if link.value.fileId in db.files then Some(db.files[link.value.fileId]) else None;
    r := Ok((file, link.value));
  }
}
