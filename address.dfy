/**
 * What a listener learns about a peer before it does any accounting: the
 * remote address as the socket reports it, the address with its IPv4-mapped
 * IPv6 prefix stripped, and the outcome of the optional geolocation lookup.
 * The lookup is an HTTP request to a public service; here its answer is a
 * parameter.
 */
module Address {
  import opened Wrappers
  import opened Text

  /** The prefix of an IPv4-mapped IPv6 address. */
  const Marker: string := "::ffff:"

  /**
   * `remoteAddress?.split("::ffff:")[1] || null`: the second piece of the split
   * (the text between the first marker and the next one, or the end), or null
   * when the address is absent, has no marker, or that piece is empty.
   */
  function NormaliseIp(remote: Option<string>): (ip: Option<string>)
    ensures remote.None? ==> ip.None?
    ensures ip.Some? ==> ip.value != "" && !Contains(ip.value, Marker)
  {
    match remote
    case None => None
    case Some(s) =>
      var parts := Split(s, Marker);
      if |parts| >= 2 && parts[1] != "" then Some(parts[1]) else None
  }

  /** `x` is the text of `s` from position `k` up to the next marker or the end. */
  predicate SegmentAt(s: string, k: nat, x: string) {
    && k + |x| <= |s|
    && s[k..k + |x|] == x
    && (forall j :: k <= j < k + |x| ==> !OccursAt(s, Marker, j))
    && (k + |x| == |s| || OccursAt(s, Marker, k + |x|))
  }

  /** Occurrences in a suffix are occurrences in the whole text, shifted. */
  lemma OccursInSuffix(s: string, k: nat, p: int)
    requires k <= |s|
    ensures OccursAt(s[k..], Marker, p) <==> p >= 0 && OccursAt(s, Marker, k + p)
  {
    if 0 <= p && p + |Marker| <= |s| - k {
      assert s[k..][p..p + |Marker|] == s[k + p..k + p + |Marker|];
    }
  }

  /** The segment that starts at a position is unique. */
  lemma SegmentUnique(s: string, k: nat, x: string, y: string)
    requires SegmentAt(s, k, x) && SegmentAt(s, k, y)
    ensures x == y
  {
    assert |x| == |y|;
  }

  /** The first piece of a split is the segment at the start. */
  lemma FirstPiece(r: string)
    ensures SegmentAt(r, 0, Split(r, Marker)[0])
  {
    match Find(r, Marker)
    case None =>
      assert Split(r, Marker)[0] == r;
      forall j | 0 <= j < |r|
        ensures !OccursAt(r, Marker, j)
      {
      }
    case Some(p) =>
      assert Split(r, Marker)[0] == r[..p];
  }

  /** A segment at the start of a suffix is a segment of the whole text. */
  lemma SegmentInSuffix(s: string, k: nat, x: string)
    requires k <= |s| && SegmentAt(s[k..], 0, x)
    ensures SegmentAt(s, k, x)
  {
    assert s[k..][0..|x|] == s[k..k + |x|];
    forall j | k <= j < k + |x|
      ensures !OccursAt(s, Marker, j)
    {
      OccursInSuffix(s, k, j - k);
    }
    OccursInSuffix(s, k, |x|);
  }

  /** The piece that follows the first marker is the segment after it. */
  lemma {:induction false} PieceAfterFirstMarker(s: string, i: nat)
    requires OccursAt(s, Marker, i)
    requires forall j :: 0 <= j < i ==> !OccursAt(s, Marker, j)
    ensures |Split(s, Marker)| >= 2
    ensures SegmentAt(s, i + |Marker|, Split(s, Marker)[1])
  {
    var k := i + |Marker|;
    var rest := s[k..];
    assert Find(s, Marker) == Some(i);
    assert Split(s, Marker) == [s[..i]] + Split(rest, Marker);
    FirstPiece(rest);
    SegmentInSuffix(s, k, Split(rest, Marker)[0]);
  }

  /**
   * Where the first marker of `s` is at position `i`, the normalised address is
   * exactly the non-empty text that follows it up to the next marker or the end.
   */
  lemma NormaliseIpIff(s: string, i: nat, x: string)
    requires OccursAt(s, Marker, i)
    requires forall j :: 0 <= j < i ==> !OccursAt(s, Marker, j)
    ensures NormaliseIp(Some(s)) == Some(x) <==> x != "" && SegmentAt(s, i + |Marker|, x)
  {
    PieceAfterFirstMarker(s, i);
    if x != "" && SegmentAt(s, i + |Marker|, x) {
      SegmentUnique(s, i + |Marker|, x, Split(s, Marker)[1]);
    }
  }

  /** A marker-free address (a plain IPv4 or IPv6 address) normalises to null. */
  lemma NoMarkerNoIp(s: string)
    ensures NormaliseIp(Some(s)).Some? ==> Contains(s, Marker)
  {
    if !Contains(s, Marker) {
      assert Split(s, Marker) == [s];
    }
  }

  /** An IPv4-mapped IPv6 address normalises to its IPv4 part. */
  lemma {:induction false} MappedIpv4(v: string)
    requires v != "" && ':' !in v
    ensures NormaliseIp(Some(Marker + v)) == Some(v)
  {
    var s := Marker + v;
    assert OccursAt(s, Marker, 0) by { assert s[0..|Marker|] == Marker; }
    forall j | |Marker| <= j < |s|
      ensures !OccursAt(s, Marker, j)
    {
      assert s[j] == v[j - |Marker|];
    }
    assert s[|Marker|..|Marker| + |v|] == v;
    NormaliseIpIff(s, 0, v);
  }

  /** The address as a dual-stack listener reports IPv4 peers, and two unmapped ones. */
  lemma NormaliseIpExamples()
    ensures NormaliseIp(Some("::ffff:127.0.0.1")) == Some("127.0.0.1")
    ensures NormaliseIp(Some("::ffff:")) == None
    ensures NormaliseIp(Some("::1")) == None
    ensures NormaliseIp(None) == None
  {
    MappedIpv4("127.0.0.1");
    assert "::ffff:127.0.0.1" == Marker + "127.0.0.1";
    NoMarkerNoIp("::1");
    assert "::ffff:" == Marker;
    assert Split(Marker, Marker) == [""] + Split("", Marker);
  }

  /** The fields of the lookup service's JSON answer that the listener copies. */
  datatype GeoFields = GeoFields(
    country: string, countryCode: string, regionName: string, city: string, zip: string,
    lat: real, lon: real, timezone: string, isp: string)

  /**
   * What the lookup promise settles to: the parsed JSON answer, or the error
   * object the `catch` handler returns when the request or the parsing fails.
   */
  datatype LookupReply =
    | Json(status: Option<string>, message: Option<string>, fields: GeoFields)
    | Rejected(message: Option<string>)

  /** The value stored in `ipInfo.error`: a message, or `true` when there is none. */
  datatype LookupError = Message(text: string) | NoMessage

  /** The nine attributes under the names `ipInfo` gives them. */
  datatype GeoAttributes = GeoAttributes(
    country: string, countryCode: string, region: string, city: string, zip: string,
    latitude: real, longitude: real, timezone: string, isp: string)

  /** What the lookup added to `ipInfo`: nothing, the attributes, or an error. */
  datatype Enrichment = NotLooked | Located(attributes: GeoAttributes) | Failed(error: LookupError)

  /** The `ipInfo` record built for every accepted socket. */
  datatype IpInfo = IpInfo(ip: Option<string>, rawIp: Option<string>, enrichment: Enrichment)

  /** `geoInfo.message || true`. */
  function ErrorOf(message: Option<string>): (e: LookupError)
    ensures e.Message? <==> Truthy(message)
    ensures e.Message? ==> e.text == message.value
  {
    if Truthy(message) then Message(message.value) else NoMessage
  }

  function Attributes(f: GeoFields): GeoAttributes {
    GeoAttributes(f.country, f.countryCode, f.regionName, f.city, f.zip, f.lat, f.lon, f.timezone, f.isp)
  }

  /**
   * A reply whose status is "success" yields the nine attributes; every other
   * reply, a rejected request included, yields its message or `true`.
   */
  function Classify(reply: LookupReply): (e: Enrichment)
    ensures !e.NotLooked?
    ensures e.Located? <==> reply.Json? && reply.status == Some("success")
    ensures e.Located? ==>
      var f, a := reply.fields, e.attributes;
      && a.country == f.country && a.countryCode == f.countryCode && a.region == f.regionName
      && a.city == f.city && a.zip == f.zip && a.latitude == f.lat && a.longitude == f.lon
      && a.timezone == f.timezone && a.isp == f.isp
    ensures e.Failed? ==> e.error == ErrorOf(reply.message)
  {
    match reply
    case Json(status, message, fields) =>
      if status == Some("success") then Located(Attributes(fields)) else Failed(ErrorOf(message))
    case Rejected(message) => Failed(ErrorOf(message))
  }

  /**
   * `getIpInfo`: `lookup` stands for the request made with the normalised
   * address; it is consulted only when lookups are enabled and that address is
   * not null.
   */
  function GetIpInfo(remote: Option<string>, lookupEnabled: bool, lookup: string -> LookupReply): (info: IpInfo)
    ensures info.rawIp == remote
    ensures info.ip == NormaliseIp(remote)
    ensures info.enrichment.NotLooked? <==> !lookupEnabled || info.ip.None?
    ensures !info.enrichment.NotLooked? ==> info.enrichment == Classify(lookup(info.ip.value))
  {
    var ip := NormaliseIp(remote);
    var enrichment := if lookupEnabled && ip.Some? then Classify(lookup(ip.value)) else NotLooked;
    IpInfo(ip, remote, enrichment)
  }
}
