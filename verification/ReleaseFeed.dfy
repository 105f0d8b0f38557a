/**
 * The object store a release is published to, the faults it may show, and the names of the objects
 * a release consists of (scripts/release/publish.ts).
 */
module ReleaseFeed {
  import opened Wrappers
  import opened ReleaseVersion

  type Key = string
  newtype byte = b: int | 0 <= b < 256
  type Bytes = seq<byte>
  type Objects = map<Key, Bytes>

  /** The feed's only mutable object. */
  const LATEST: Key := "latest"

  function ManifestKey(version: string): Key {
    version + "/manifest.json"
  }

  /** An object belongs to a version when its key is a path below the version's directory. */
  predicate IsUnder(key: Key, version: string) {
    |version| < |key| && key[..|version|] == version && key[|version|] == '/'
  }

  predicate IsPathSegment(segment: string) {
    forall i :: 0 <= i < |segment| ==> segment[i] != '/'
  }

  lemma VersionIsPathSegment(version: string)
    requires IsValidReleaseVersion(version)
    ensures IsPathSegment(version)
  {
    assert forall i :: 0 <= i < |version| ==> IsVersionChar(version[i]);
  }

  lemma FirstSlash(key: Key, version: string)
    requires IsPathSegment(version) && IsUnder(key, version)
    ensures forall i :: 0 <= i < |version| ==> key[i] != '/'
  {
    forall i | 0 <= i < |version|
      ensures key[i] != '/'
    {
      assert key[i] == key[..|version|][i];
    }
  }

  /** No object belongs to two versions, and the selector belongs to none. */
  lemma ObjectHasOneVersion(key: Key, v: string, w: string)
    requires IsPathSegment(v) && IsPathSegment(w)
    requires IsUnder(key, v) && IsUnder(key, w)
    ensures v == w && key != LATEST
  {
    FirstSlash(key, v);
    FirstSlash(key, w);
    LatestIsUnderNoVersion(v);
  }

  lemma LatestIsUnderNoVersion(version: string)
    ensures !IsUnder(LATEST, version)
  {
    assert forall i :: 0 <= i < |LATEST| ==> LATEST[i] != '/';
  }

  lemma ManifestIsUnder(version: string)
    ensures IsUnder(ManifestKey(version), version) && ManifestKey(version) != LATEST
  {
    LatestIsUnderNoVersion(version);
  }

  /** The selector's contents: the version and a line feed, encoded in UTF-8. */
  function LatestText(version: string): (text: Bytes)
    requires IsValidReleaseVersion(version)
  {
    assert forall i :: 0 <= i < |version| ==> IsVersionChar(version[i]);
    seq(|version|, i requires 0 <= i < |version| => version[i] as int as byte) + [10]
  }

  /** A selector names one version. */
  lemma LatestTextIsInjective(v: string, w: string)
    requires IsValidReleaseVersion(v) && IsValidReleaseVersion(w)
    requires LatestText(v) == LatestText(w)
    ensures v == w
  {
    assert |v| == |LatestText(v)| - 1 == |LatestText(w)| - 1 == |w|;
    forall i | 0 <= i < |v|
      ensures v[i] == w[i]
    {
      assert LatestText(v)[i] == LatestText(w)[i];
      assert v[i] as int == w[i] as int;
    }
  }

  function Selector(objects: Objects): Option<Bytes> {
    if LATEST in objects then Some(objects[LATEST]) else None
  }

  /* Requests and what the store may do with them. */

  datatype Request =
    | Head(key: Key)
    | Get(key: Key)
    | Put(key: Key, bytes: Bytes)
    | Delete(key: Key)
    | AnonymousGet(key: Key)  // the origin must refuse it

  datatype Reply =
    | Done
    | Present
    | Absent
    | Content(bytes: Bytes)
    | Fault(timeout: bool)

  /**
   * The store answers `request` with `reply` and goes from `before` to `after`. Any request may
   * fault, and a faulted write may have taken effect. A write to a corruptible key may store other
   * bytes than it was sent; reads always return what is stored.
   */
  ghost predicate Serves(corruptible: set<Key>, request: Request, reply: Reply, before: Objects, after: Objects) {
    match request
    case Head(key) =>
      && after == before
      && (reply.Fault? || reply == if key in before then Present else Absent)
    case Get(key) =>
      && after == before
      && (reply.Fault? || (key in before && reply == Content(before[key])))
    case AnonymousGet(key) =>
      && after == before
      && (reply.Fault? || reply.Done?)
    case Delete(key) =>
      && (reply.Fault? || reply.Done?)
      && (after == before - {key} || (reply.Fault? && after == before))
    case Put(key, bytes) =>
      && (reply.Fault? || reply.Done?)
      && (Stores(corruptible, key, bytes, before, after) || (reply.Fault? && after == before))
  }

  ghost predicate Stores(corruptible: set<Key>, key: Key, bytes: Bytes, before: Objects, after: Objects) {
    && key in after
    && after == before[key := after[key]]
    && (key in corruptible || after[key] == bytes)
  }
}
