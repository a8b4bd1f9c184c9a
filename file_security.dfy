/**
 * The download rule for stored files: who may fetch a file, given the
 * caller's authentication, the stored files and the participations.
 */
module FileSecurity {
  import opened Wrappers
  import opened Models
  import opened EventService

  /** The principal of an authentication: a user profile, or anything else. */
  datatype Principal = ProfilePrincipal(id: Uuid) | OtherPrincipal

  /** The parts of a Spring authentication that the rule reads. */
  datatype Authentication = Authentication(
    authenticated: bool,
    principal: Principal,
    authorities: seq<string>)

  /** A stored file; schematics overviews have no event. */
  datatype FileEntity = FileEntity(
    fileId: Uuid,
    event: Option<Uuid>,
    name: string,
    contentType: string)

  /** How the rule fails instead of answering. */
  datatype Fault =
    | ClassCast     // the principal is not a profile
    | NullEvent     // the file has no event to look the participation up in

  /** The caller holds the ADMIN authority. */
  predicate HasAdminAuthority(authorities: seq<string>) {
    exists i :: 0 <= i < |authorities| && authorities[i] == "ADMIN"
  }

  /**
   * Where "ADMIN" stands among the authorities does not matter, and only
   * that exact name counts: "ROLE_ADMIN" or "admin" do not.
   */
  lemma AdminAuthorityAnywhere(a: seq<string>, b: seq<string>)
    ensures HasAdminAuthority(a + b) <==> HasAdminAuthority(a) || HasAdminAuthority(b)
    ensures HasAdminAuthority(a + ["ADMIN"] + b)
    ensures !HasAdminAuthority(["ROLE_ADMIN", "admin"])
  {
    if HasAdminAuthority(a + b) {
      var i :| 0 <= i < |a + b| && (a + b)[i] == "ADMIN";
      if i >= |a| {
        assert b[i - |a|] == "ADMIN";
      }
    }
    if HasAdminAuthority(b) {
      var i :| 0 <= i < |b| && b[i] == "ADMIN";
      assert (a + b)[|a| + i] == "ADMIN";
    }
    if HasAdminAuthority(a) {
      var i :| 0 <= i < |a| && a[i] == "ADMIN";
      assert (a + b)[i] == "ADMIN";
    }
    assert (a + ["ADMIN"] + b)[|a|] == "ADMIN";
  }

  /**
   * `canDownloadFile`: an absent or unauthenticated caller is denied; an
   * authenticated principal that is not a profile makes the cast fail; an
   * admin is allowed; anyone else is allowed iff the file exists and they
   * take part in its event, and a stored file without an event makes the
   * check fail.
   */
  function CanDownloadFile(fileId: Uuid, authentication: Option<Authentication>,
                           files: map<Uuid, FileEntity>, participations: seq<Participation>): (r: Result<bool, Fault>)
    ensures authentication.None? || !authentication.value.authenticated ==> r == Success(false)
    ensures r == Success(true) <==>
      && authentication.Some? && authentication.value.authenticated
      && authentication.value.principal.ProfilePrincipal?
      && (|| HasAdminAuthority(authentication.value.authorities)
          || (&& fileId in files && files[fileId].event.Some?
              && IsParticipant(participations, files[fileId].event.value, authentication.value.principal.id)))
    ensures r == Failure(ClassCast) <==>
      authentication.Some? && authentication.value.authenticated && authentication.value.principal.OtherPrincipal?
    ensures r == Failure(NullEvent) <==>
      && authentication.Some? && authentication.value.authenticated
      && authentication.value.principal.ProfilePrincipal?
      && !HasAdminAuthority(authentication.value.authorities)
      && fileId in files && files[fileId].event.None?
  {
    if authentication.None? || !authentication.value.authenticated then Success(false)
    else
      var auth := authentication.value;
      if auth.principal.OtherPrincipal? then Failure(ClassCast)
      else if HasAdminAuthority(auth.authorities) then Success(true)
      else if fileId !in files then Success(false)
      else if files[fileId].event.None? then Failure(NullEvent)
      else Success(IsParticipant(participations, files[fileId].event.value, auth.principal.id))
  }

  /** An admin's answer does not depend on the stored files or the participations. */
  lemma AdminIgnoresFiles(fileId: Uuid, auth: Authentication,
                          files: map<Uuid, FileEntity>, ps: seq<Participation>,
                          files': map<Uuid, FileEntity>, ps': seq<Participation>)
    requires auth.authenticated && auth.principal.ProfilePrincipal? && HasAdminAuthority(auth.authorities)
    ensures CanDownloadFile(fileId, Some(auth), files, ps) == CanDownloadFile(fileId, Some(auth), files', ps')
    ensures CanDownloadFile(fileId, Some(auth), files, ps) == Success(true)
  {
  }

  /** Once the caller takes part in the file's event, the download is allowed. */
  lemma JoiningGrantsDownload(fileId: Uuid, auth: Authentication, files: map<Uuid, FileEntity>,
                              ps: seq<Participation>, p: Participation)
    requires auth.authenticated && auth.principal.ProfilePrincipal?
    requires fileId in files && files[fileId].event == Some(p.eventId) && p.employeeId == auth.principal.id
    ensures CanDownloadFile(fileId, Some(auth), files, ps + [p]) == Success(true)
  {
    assert (ps + [p])[|ps|] == p;
  }
}
