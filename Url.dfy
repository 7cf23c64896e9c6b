/**
 * `urllib.parse.urljoin` as the spiders use it: a form action resolved against the
 * origin of one of the two registry sites.
 */
module Url {
  import opened Str

  /** The origin of the transport-commission (CTQ) site. */
  const CtqOrigin: string := "https://www.pes.ctq.gouv.qc.ca"

  /** The origin of the building-licence (RBQ) site. */
  const RbqOrigin: string := "https://www.pes.rbq.gouv.qc.ca"

  /** `urljoin(origin, ref)` for an `https` origin with an empty path: an absolute
      reference replaces the origin, a network-path one keeps the origin's scheme, and
      anything else is resolved against the empty path of the origin. */
  function JoinOrigin(origin: string, ref: string): string
    requires StartsWith(origin, "https://")
  {
    if StartsWith(ref, "https:") || StartsWith(ref, "http:") then ref
    else if StartsWith(ref, "//") then "https:" + ref
    else if ref == "" || StartsWith(ref, "/") || StartsWith(ref, "?") || StartsWith(ref, "#") then origin + ref
    else origin + "/" + ref
  }

  /** The joined URL is always absolute: it is the reference itself when that has an
      `http:` or `https:` scheme, and otherwise it starts with `https:`, the origin's
      scheme (a network-path reference keeps its own host). */
  lemma JoinOriginAbsolute(origin: string, ref: string)
    requires StartsWith(origin, "https://")
    ensures var r := JoinOrigin(origin, ref);
      StartsWith(r, "https:") || StartsWith(r, "http:")
    ensures StartsWith(ref, "https:") || StartsWith(ref, "http:") ==> JoinOrigin(origin, ref) == ref
    ensures !StartsWith(ref, "https:") && !StartsWith(ref, "http:") ==>
      StartsWith(JoinOrigin(origin, ref), "https:")
  {
    var r := JoinOrigin(origin, ref);
    var s := "https:";
    if !StartsWith(ref, "https:") && !StartsWith(ref, "http:") {
      assert origin[..6] == origin[..8][..6] == s;
      if StartsWith(ref, "//") {
        assert r == s + ref;
      } else {
        assert r[..|origin|] == origin;
      }
      assert r[..6] == s;
    }
  }

  /** A site-relative action lands on the origin with the action as its path. */
  lemma JoinOriginPath(origin: string, ref: string)
    requires StartsWith(origin, "https://")
    requires StartsWith(ref, "/") && !StartsWith(ref, "//")
    ensures JoinOrigin(origin, ref) == origin + ref
  {
    assert ref[0] == '/';
    assert !StartsWith(ref, "https:") by {
      assert |"https:"| <= |ref| ==> ref[..6][0] == ref[0];
    }
    assert !StartsWith(ref, "http:") by {
      assert |"http:"| <= |ref| ==> ref[..5][0] == ref[0];
    }
  }

  /** Both registry origins are `https` origins. */
  lemma OriginsAreHttps()
    ensures StartsWith(CtqOrigin, "https://") && StartsWith(RbqOrigin, "https://")
  {
  }
}
