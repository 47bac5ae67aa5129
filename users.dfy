/** The provider's user record and the `SimpleUser` shape the route keeps in its snapshot. */
module Users {
  import opened Wrappers

  /** The provider's per-user metadata; either timestamp may be missing. */
  datatype Metadata = Metadata(creationTime: Option<string>, lastSignInTime: Option<string>)

  /** One record as the identity provider's `listUsers` returns it. */
  datatype RawUser = RawUser(
    uid: string,
    email: Option<string>,
    displayName: Option<string>,
    photoURL: Option<string>,
    disabled: bool,
    metadata: Option<Metadata>)

  /** A snapshot entry: optional profile fields are explicit `None` (JavaScript `null`) rather than dropped. */
  datatype SimpleUser = SimpleUser(
    uid: string,
    email: Option<string>,
    displayName: Option<string>,
    photoURL: Option<string>,
    disabled: bool,
    creationTime: Option<string>,
    lastSignInTime: Option<string>)

  /** The timestamps of a record whose metadata may itself be absent (`u.metadata?.creationTime`). */
  function CreationTime(m: Option<Metadata>): Option<string> {
    if m.Some? then m.value.creationTime else None
  }

  function LastSignInTime(m: Option<Metadata>): Option<string> {
    if m.Some? then m.value.lastSignInTime else None
  }

  /** The object literal pushed for each provider record. */
  function Normalize(u: RawUser): SimpleUser {
    SimpleUser(u.uid, u.email, u.displayName, u.photoURL, u.disabled,
               CreationTime(u.metadata), LastSignInTime(u.metadata))
  }

  /**
   * Normalisation keeps the identity and the profile: the key and the disabled flag are
   * copied, an absent profile field stays absent, and the timestamps are the metadata's.
   */
  lemma NormalizeKeepsFields(u: RawUser)
    ensures Normalize(u).uid == u.uid && Normalize(u).disabled == u.disabled
    ensures Normalize(u).email == u.email && Normalize(u).displayName == u.displayName
    ensures Normalize(u).photoURL == u.photoURL
    ensures u.metadata.None? ==> Normalize(u).creationTime.None? && Normalize(u).lastSignInTime.None?
    ensures u.metadata.Some? ==>
      Normalize(u).creationTime == u.metadata.value.creationTime
      && Normalize(u).lastSignInTime == u.metadata.value.lastSignInTime
  {
  }

  /** Every record of a page, normalised, in page order. */
  function NormalizeAll(us: seq<RawUser>): (ss: seq<SimpleUser>)
    ensures |ss| == |us|
  {
    if us == [] then [] else NormalizeAll(us[..|us| - 1]) + [Normalize(us[|us| - 1])]
  }

  /** The k-th entry of a normalised page is the k-th record, normalised. */
  lemma {:induction false} NormalizeAllAt(us: seq<RawUser>, k: nat)
    requires k < |us|
    ensures NormalizeAll(us)[k] == Normalize(us[k])
    decreases |us|
  {
    if k < |us| - 1 {
      var init := us[..|us| - 1];
      NormalizeAllAt(init, k);
      assert NormalizeAll(us)[k] == NormalizeAll(init)[k];
    }
  }
}
