/** How a vector-store collection reference such as `my-index.svc.pinecone.io/docs`
    becomes the service origin requests go to and the namespace they carry.
    URLs are split by a simplified version of the WHATWG URL Standard's basic URL
    parser that handles the two schemes the normalised string can carry. */
module CollectionUrl {
  import opened Wrappers

  const Http: string := "http://"
  const Https: string := "https://"

  /** The parts of a parsed URL that are used: `protocol` (with its colon), `host`
      (the authority, port included) and `pathname`. */
  datatype Url = Url(protocol: string, host: string, pathname: string)

  /** Where requests for a collection go, and the namespace they name, if any. */
  datatype CollectionDetails = CollectionDetails(host: string, namespace: Option<string>)

  predicate HasScheme(s: string)
  {
    Http <= s || Https <= s
  }

  /** A string without either scheme is taken as `https://` followed by the string. */
  function Normalize(collection: string): (r: string)
    ensures HasScheme(r)
    ensures HasScheme(collection) ==> r == collection
    ensures !HasScheme(collection) ==> Https <= r && r[|Https|..] == collection
  {
    if !HasScheme(collection) then Https + collection else collection
  }

  /** Normalising twice is normalising once. */
  lemma NormalizeIdempotent(collection: string)
    ensures Normalize(Normalize(collection)) == Normalize(collection)
  {
  }

  /** The first position at or after `from` holding one of `stops`, or the end. */
  function FirstOf(s: string, from: nat, stops: set<char>): (r: nat)
    requires from <= |s|
    ensures from <= r <= |s|
    ensures forall j :: from <= j < r ==> s[j] !in stops
    ensures r < |s| ==> s[r] in stops
    decreases |s| - from
  {
    if from == |s| || s[from] in stops then from else FirstOf(s, from + 1, stops)
  }

  /** Code points the URL Standard refuses in the host of an `http` or `https` URL, its
      "forbidden domain code points" (the C0 controls, U+007F and the forbidden host code
      points), less `:`, which here may introduce a port, and `%`, which there starts an
      escape. */
  predicate ForbiddenInHost(c: char)
  {
    || c <= '\U{1f}'
    || c == '\U{7f}'
    || c in {' ', '#', '/', '<', '>', '?', '@', '[', '\\', ']', '^', '|'}
  }

  /** The first `k` characters of `rest` form an acceptable host: non-empty, not starting
      with the `:` of a port, free of forbidden code points, and followed by the end, a
      path, a query or a fragment. */
  ghost predicate HostEndsAt(rest: string, k: int)
  {
    && 0 < k <= |rest|
    && rest[0] != ':'
    && (forall j :: 0 <= j < k ==> !ForbiddenInHost(rest[j]))
    && (k == |rest| || rest[k] in {'/', '?', '#'})
  }

  /** The authority and path after `scheme://`; the path stops at a query or fragment and
      is `/` when empty, as for every special scheme. */
  function ParseAuthorityAndPath(protocol: string, rest: string): (r: Option<Url>)
    ensures r.None? <==> !exists k :: HostEndsAt(rest, k)
    ensures r.Some? ==> HostEndsAt(rest, |r.value.host|)
    ensures r.Some? ==> r.value.protocol == protocol
    ensures r.Some? ==> r.value.host != "" && r.value.host <= rest
    ensures r.Some? ==> forall c :: c in r.value.host ==> !ForbiddenInHost(c)
    ensures r.Some? ==> |r.value.pathname| > 0 && r.value.pathname[0] == '/'
    ensures r.Some? ==> '?' !in r.value.pathname && '#' !in r.value.pathname
    ensures r.Some? ==> ExplicitPath(rest[|r.value.host|..], r.value.pathname)
  {
    var e := FirstOf(rest, 0, {'/', '?', '#'});
    var authority := rest[..e];
    HostEndsOnlyAtFirstStop(rest, e);
    if authority == [] || authority[0] == ':' || exists j :: 0 <= j < e && ForbiddenInHost(rest[j]) then None
    else
      var p := FirstOf(rest, e, {'?', '#'});
      var path := rest[e..p];
      assert path <= rest[e..];
      Some(Url(protocol, authority, if path == [] then "/" else path))
  }

  /** Only the first stop character can end an acceptable host. */
  lemma HostEndsOnlyAtFirstStop(rest: string, e: nat)
    requires e == FirstOf(rest, 0, {'/', '?', '#'})
    ensures forall k :: HostEndsAt(rest, k) ==> k == e
    ensures HostEndsAt(rest, e) <==> e > 0 && rest[0] != ':' && forall j :: 0 <= j < e ==> !ForbiddenInHost(rest[j])
  {
    assert ForbiddenInHost('/') && ForbiddenInHost('?') && ForbiddenInHost('#');
  }

  /** What follows the authority: the path (absent when it is `/`), then nothing or a
      query or fragment. */
  ghost predicate ExplicitPath(tail: string, pathname: string)
  {
    var path := if pathname == "/" && !("/" <= tail) then "" else pathname;
    && path <= tail
    && (|tail| == |path| || tail[|path|] == '?' || tail[|path|] == '#')
  }

  /** `new URL(s)` for strings with either scheme; other strings are not URLs here. */
  function ParseUrl(s: string): (r: Option<Url>)
    ensures r.Some? ==> HasScheme(s)
    ensures r.Some? ==> (r.value.protocol == "http:" && Http <= s) || (r.value.protocol == "https:" && Https <= s)
    ensures r.Some? ==> r.value.protocol + "//" + r.value.host <= s
    ensures !HasScheme(s) ==> r.None?
    ensures Https <= s ==> r == ParseAuthorityAndPath("https:", s[|Https|..])
    ensures !(Https <= s) && Http <= s ==> r == ParseAuthorityAndPath("http:", s[|Http|..])
  {
    if Https <= s then ParseAuthorityAndPath("https:", s[|Https|..])
    else if Http <= s then ParseAuthorityAndPath("http:", s[|Http|..])
    else None
  }

  /** `getCollection`: the origin `protocol//host` and, unless the path is `/`, the path
      without its leading slash as namespace. Fails when the normalised string is not a URL. */
  function GetCollection(collection: string): (r: Result<CollectionDetails, ()>)
    ensures r.Err? <==> ParseUrl(Normalize(collection)).None?
    ensures r.Ok? ==> r.value.host <= Normalize(collection)
    ensures r.Ok? ==> var url := ParseUrl(Normalize(collection)).value;
              r.value.host == url.protocol + "//" + url.host
    ensures r.Ok? ==> IsOrigin(r.value.host)
    ensures r.Ok? ==> (r.value.namespace.None? <==> ParseUrl(Normalize(collection)).value.pathname == "/")
    ensures r.Ok? ==> match r.value.namespace
                      case None => true
                      case Some(ns) =>
                        && ns != ""
                        && "/" + ns == ParseUrl(Normalize(collection)).value.pathname
                        && r.value.host + "/" + ns <= Normalize(collection)
  {
    var s := Normalize(collection);
    match ParseUrl(s)
    case None => Err(())
    case Some(url) =>
      var host := url.protocol + "//" + url.host;
      var namespace := if url.pathname != "/" then Some(url.pathname[1..]) else None;
      NamespaceFollowsHost(s, url);
      Ok(CollectionDetails(host, namespace))
  }

  /** An origin: a scheme, `//` and a non-empty authority with no slash in it. */
  ghost predicate IsOrigin(h: string)
  {
    || (Https <= h && |h| > |Https| && '/' !in h[|Https|..])
    || (Http <= h && |h| > |Http| && '/' !in h[|Http|..])
  }

  /** The host is a slash-free prefix of what follows `//`, and a pathname other than `/`
      comes straight after it. */
  lemma PathFollowsHost(protocol: string, rest: string, url: Url)
    requires ParseAuthorityAndPath(protocol, rest) == Some(url)
    ensures url.host != "" && url.host <= rest && '/' !in url.host
    ensures url.pathname != "/" ==> url.host + url.pathname <= rest
  {
    assert ForbiddenInHost('/');
    if url.pathname != "/" {
      var tail := rest[|url.host|..];
      assert ExplicitPath(tail, url.pathname);
      assert url.pathname <= tail;
      assert rest == url.host + tail;
    }
  }

  /** The origin is a prefix of the parsed string, and so is origin + "/" + namespace. */
  lemma NamespaceFollowsHost(s: string, url: Url)
    requires ParseUrl(s) == Some(url)
    ensures url.protocol + "//" + url.host <= s
    ensures IsOrigin(url.protocol + "//" + url.host)
    ensures url.pathname != "/" ==>
              url.pathname[1..] != "" && "/" + url.pathname[1..] == url.pathname && url.protocol + "//" + url.host + "/" + url.pathname[1..] <= s
  {
    var scheme := if Https <= s then Https else Http;
    var rest := s[|scheme|..];
    assert ParseAuthorityAndPath(url.protocol, rest) == Some(url);
    PathFollowsHost(url.protocol, rest, url);
    OriginPrefix(s, scheme, url);
  }

  /** The same facts, stated for a string that starts with a scheme followed by the host
      and, unless it is `/`, the pathname. */
  lemma OriginPrefix(s: string, scheme: string, url: Url)
    requires scheme == Https || scheme == Http
    requires scheme <= s && url.protocol + "//" == scheme
    requires url.host != "" && url.host <= s[|scheme|..] && '/' !in url.host
    requires |url.pathname| > 0 && url.pathname[0] == '/'
    requires url.pathname != "/" ==> url.host + url.pathname <= s[|scheme|..]
    ensures url.protocol + "//" + url.host <= s
    ensures IsOrigin(url.protocol + "//" + url.host)
    ensures url.pathname != "/" ==>
              url.pathname[1..] != "" && "/" + url.pathname[1..] == url.pathname && url.protocol + "//" + url.host + "/" + url.pathname[1..] <= s
  {
    var origin := url.protocol + "//" + url.host;
    var rest := s[|scheme|..];
    assert s == scheme + rest;
    assert origin == scheme + url.host;
    assert origin[|scheme|..] == url.host;
    if url.pathname != "/" {
      assert url.pathname == "/" + url.pathname[1..];
      assert origin + "/" + url.pathname[1..] == scheme + (url.host + url.pathname);
    }
  }

  /** A bare host with a path: https is assumed and the path names the namespace. */
  lemma BareHostWithNamespace()
    ensures GetCollection("ix/ns") == Ok(CollectionDetails("https://ix", Some("ns")))
  {
    var s := Https + "ix/ns";
    assert Normalize("ix/ns") == s;
    assert !(Https <= "ix/ns");
    var rest := s[|Https|..];
    assert rest == "ix/ns";
    var stops := {'/', '?', '#'};
    assert FirstOf(rest, 2, stops) == 2;
    assert FirstOf(rest, 1, stops) == 2;
    assert FirstOf(rest, 0, stops) == 2;
    assert FirstOf(rest, 5, {'?', '#'}) == 5;
    assert FirstOf(rest, 4, {'?', '#'}) == 5;
    assert FirstOf(rest, 3, {'?', '#'}) == 5;
    assert FirstOf(rest, 2, {'?', '#'}) == 5;
    assert rest[..2] == "ix" && rest[2..5] == "/ns";
    assert rest[0] == 'i' && rest[1] == 'x';
    assert !ForbiddenInHost('i') && !ForbiddenInHost('x');
    assert ParseAuthorityAndPath("https:", rest) == Some(Url("https:", "ix", "/ns"));
    assert ParseUrl(s) == Some(Url("https:", "ix", "/ns"));
    assert "/ns"[1..] == "ns";
    assert "https:" + "//" + "ix" == "https://ix";
  }

  /** An explicit http origin with no path has no namespace. */
  lemma HttpOriginWithoutNamespace()
    ensures GetCollection("http://h") == Ok(CollectionDetails("http://h", None))
  {
    var s := Http + "h";
    assert "http://h" == s;
    assert s[4] != Https[4];
    var rest := s[|Http|..];
    assert rest == "h";
    assert rest[..1] == "h" && rest[1..1] == "";
    assert rest[0] == 'h' && !ForbiddenInHost('h');
    assert ParseAuthorityAndPath("http:", rest) == Some(Url("http:", "h", "/"));
    assert FirstOf(rest, 1, {'/', '?', '#'}) == 1;
    assert FirstOf(rest, 0, {'/', '?', '#'}) == 1;
    assert FirstOf(rest, 1, {'?', '#'}) == 1;
    assert ParseUrl(s) == Some(Url("http:", "h", "/"));
    assert "http:" + "//" + "h" == "http://h";
  }

  /** A host containing a space is not a URL. */
  lemma SpaceInHostIsRejected()
    ensures GetCollection("a b") == Err(())
  {
    var s := Https + "a b";
    assert Normalize("a b") == s;
    var rest := s[|Https|..];
    assert rest == "a b";
    assert ForbiddenInHost(rest[1]);
  }

  /** A port with no host before it is not a URL. */
  lemma EmptyHostBeforePortIsRejected()
    ensures GetCollection(":80") == Err(())
  {
    var s := Https + ":80";
    assert Normalize(":80") == s;
    var rest := s[|Https|..];
    assert rest == ":80";
    assert rest[0] == ':';
  }

  /** A control character inside a host is not a URL either. */
  lemma ControlInHostIsRejected()
    ensures GetCollection("i\U{1}x") == Err(())
  {
    var s := Https + "i\U{1}x";
    assert Normalize("i\U{1}x") == s;
    var rest := s[|Https|..];
    assert rest == "i\U{1}x";
    assert ForbiddenInHost(rest[1]);
  }
}
