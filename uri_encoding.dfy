/** The UriEncoder enumeration: two strategies, FIXING and RAW, and the
    dispatch that rebuilds a URI from an existing one plus a list of extra
    query parameters. Everything here is a pure function; the StringBuilder
    routines of each strategy live in FixingEncoder and RawEncoder and are
    proved equal to the functions of this module. */
module UriEncoding {
  import opened Collaborators
  import opened QueryText

  /** The strategies; there are exactly these two. */
  datatype UriEncoder = Fixing | Raw
  {
    /** encodePath: FIXING hands the path to the path encoder, RAW returns
        it untouched, null included. */
    function EncodePath(enc: Utf8UrlEncoder, path: Option<string>): (r: Option<string>)
      ensures Raw? ==> r == path
      ensures Fixing? ==> r == enc.encodePath(path)
    {
      match this
      case Fixing => enc.encodePath(path)
      case Raw => path
    }

    /** What each parameter name and value goes through: the query-element
        encoder under FIXING, nothing under RAW. */
    function Element(enc: Utf8UrlEncoder): string -> string {
      match this
      case Fixing => enc.encodeQueryElement
      case Raw => Verbatim
    }

    /** withQueryWithoutParams: the existing non-empty query, through the
        query encoder under FIXING and as it is under RAW. It is also the
        text both strategies put in front of the parameters. */
    function WithQueryWithoutParams(enc: Utf8UrlEncoder, query: string): (r: string)
      ensures Raw? ==> r == query
      ensures Fixing? ==> r == enc.encodeQuery(query)
    {
      match this
      case Fixing => enc.encodeQuery(query)
      case Raw => query
    }

    /** withQueryWithParams: the query followed by the rendered parameters,
        all joined with '&'. With parameters that is the query, one '&' and
        the parameters' own join; with none it is the query alone, the '&'
        written after it being the char the trim removes. */
    function WithQueryWithParams(enc: Utf8UrlEncoder, query: string, ps: seq<Param>): (r: string)
      ensures |ps| > 0 ==> r == WithQueryWithoutParams(enc, query) + "&" + WithoutQueryWithParams(enc, ps)
      ensures |ps| == 0 ==> r == WithQueryWithoutParams(enc, query)
    {
      var head := WithQueryWithoutParams(enc, query);
      var texts := ParamTexts(Element(enc), ps);
      assert ([head] + texts)[1..] == texts;
      assert |ps| == 0 ==> [head] + texts == [head];
      Join([head] + texts)
    }

    /** withoutQueryWithParams: the rendered parameters joined with '&', so
        that splitting on '&' gives them back one by one, in list order, when
        none holds an '&'. The source trims one char off the buffer, which
        throws on an empty list. */
    function WithoutQueryWithParams(enc: Utf8UrlEncoder, ps: seq<Param>): (r: string)
      requires |ps| > 0
      ensures AmpFree(ParamTexts(Element(enc), ps)) ==> Split(r) == ParamTexts(Element(enc), ps)
    {
      var texts := ParamTexts(Element(enc), ps);
      assert AmpFree(texts) ==> Split(Join(texts)) == texts by {
        if AmpFree(texts) {
          SplitJoin(texts);
        }
      }
      Join(texts)
    }

    /** withQuery: the rendered query always leads; parameters, when there
        are any, follow it after one '&', and only then is anything added. */
    function WithQuery(enc: Utf8UrlEncoder, query: string, ps: Option<seq<Param>>): (r: string)
      ensures WithQueryWithoutParams(enc, query) <= r
      ensures IsNonEmptyList(ps) <==> |r| > |WithQueryWithoutParams(enc, query)|
      ensures IsNonEmptyList(ps) ==>
        r == WithQueryWithoutParams(enc, query) + "&" + WithoutQueryWithParams(enc, ps.value)
    {
      if IsNonEmptyList(ps) then WithQueryWithParams(enc, query, ps.value)
      else WithQueryWithoutParams(enc, query)
    }

    /** withoutQuery: a query exactly when there are parameters. */
    function WithoutQuery(enc: Utf8UrlEncoder, ps: Option<seq<Param>>): (r: Option<string>)
      ensures r.Some? <==> IsNonEmptyList(ps)
    {
      if IsNonEmptyList(ps) then Some(WithoutQueryWithParams(enc, ps.value)) else None
    }

    /** encodeQuery: the new query is null exactly when neither the old
        query nor the parameter list is non-empty. */
    function EncodeQuery(enc: Utf8UrlEncoder, query: Option<string>, ps: Option<seq<Param>>): (r: Option<string>)
      ensures r.None? <==> !IsNonEmpty(query) && !IsNonEmptyList(ps)
    {
      if IsNonEmpty(query) then Some(WithQuery(enc, query.value, ps)) else WithoutQuery(enc, ps)
    }

    /** encode: scheme, user info, host and port are carried over; only the
        path and the query are replaced. */
    function Encode(enc: Utf8UrlEncoder, uri: Uri, ps: Option<seq<Param>>): (r: Uri)
      ensures r.scheme == uri.scheme && r.userInfo == uri.userInfo
      ensures r.host == uri.host && r.port == uri.port
      ensures r.path == EncodePath(enc, uri.path)
      ensures r.query == EncodeQuery(enc, uri.query, ps)
      ensures r.query.None? <==> !IsNonEmpty(uri.query) && !IsNonEmptyList(ps)
    {
      Uri(uri.scheme, uri.userInfo, uri.host, uri.port,
          EncodePath(enc, uri.path), EncodeQuery(enc, uri.query, ps))
    }
  }

  /** uriEncoder: RAW when URL encoding is disabled, FIXING otherwise. */
  function UriEncoderFor(disableUrlEncoding: bool): (r: UriEncoder)
    ensures r.Raw? <==> disableUrlEncoding
    ensures r.Fixing? <==> !disableUrlEncoding
  {
    if disableUrlEncoding then Raw else Fixing
  }

  /** The segments between '&' in the new query: those of the old query (if
      it was non-empty) followed by the rendered parameters, one segment per
      parameter and in list order, provided no rendered parameter holds an '&'. */
  lemma QuerySegments(s: UriEncoder, enc: Utf8UrlEncoder, query: Option<string>, ps: Option<seq<Param>>)
    requires IsNonEmptyList(ps)
    requires AmpFree(ParamTexts(s.Element(enc), ps.value))
    ensures s.EncodeQuery(enc, query, ps).Some?
    ensures Split(s.EncodeQuery(enc, query, ps).value)
         == (if IsNonEmpty(query) then Split(s.WithQueryWithoutParams(enc, query.value)) else [])
            + ParamTexts(s.Element(enc), ps.value)
  {
    var texts := ParamTexts(s.Element(enc), ps.value);
    SplitJoin(texts);
    if IsNonEmpty(query) {
      var head := s.WithQueryWithoutParams(enc, query.value);
      assert ([head] + texts)[1..] == texts;
      SplitAround(head, Join(texts));
    }
  }

  /** The new query holds one '&' between neighbouring parameters, one more
      after the old query if there was one, and whatever '&' the old query
      itself held. */
  lemma SeparatorCount(s: UriEncoder, enc: Utf8UrlEncoder, query: Option<string>, ps: Option<seq<Param>>)
    requires IsNonEmptyList(ps)
    requires AmpFree(ParamTexts(s.Element(enc), ps.value))
    ensures s.EncodeQuery(enc, query, ps).Some?
    ensures AmpCount(s.EncodeQuery(enc, query, ps).value)
         == (if IsNonEmpty(query) then AmpCount(s.WithQueryWithoutParams(enc, query.value)) + 1 else 0)
            + |ps.value| - 1
  {
    var r := s.EncodeQuery(enc, query, ps).value;
    QuerySegments(s, enc, query, ps);
    SplitLength(r);
    if IsNonEmpty(query) {
      SplitLength(s.WithQueryWithoutParams(enc, query.value));
    }
  }

  /** Each parameter's segment reads back as its name and value, each through
      the strategy's element transform, with a null value still null. */
  lemma ParamSegment(s: UriEncoder, enc: Utf8UrlEncoder, ps: seq<Param>, i: nat)
    requires i < |ps|
    requires '=' !in s.Element(enc)(ps[i].name)
    ensures SplitParam(ParamTexts(s.Element(enc), ps)[i])
         == (s.Element(enc)(ps[i].name), MapOption(s.Element(enc), ps[i].value))
  {
    ParamTextRoundTrip(s.Element(enc), ps[i]);
  }

  /** The parameters with each name and value replaced by its element encoding. */
  function EncodedParams(enc: Utf8UrlEncoder, ps: seq<Param>): seq<Param> {
    seq(|ps|, i requires 0 <= i < |ps| =>
      Param(enc.encodeQueryElement(ps[i].name), MapOption(enc.encodeQueryElement, ps[i].value)))
  }

  /** FIXING is RAW applied to content encoded beforehand: the query through
      the query encoder, each name and value through the element encoder on
      its own. So the '=' and '&' FIXING inserts never pass through an encoder. */
  lemma FixingIsRawOfEncoded(enc: Utf8UrlEncoder, query: Option<string>, ps: Option<seq<Param>>)
    requires IsNonEmpty(query) ==> |enc.encodeQuery(query.value)| > 0
    ensures Fixing.EncodeQuery(enc, query, ps)
         == Raw.EncodeQuery(enc,
              if IsNonEmpty(query) then Some(enc.encodeQuery(query.value)) else None,
              if ps.Some? then Some(EncodedParams(enc, ps.value)) else None)
  {
    if ps.Some? {
      var raw := EncodedParams(enc, ps.value);
      assert ParamTexts(Fixing.Element(enc), ps.value) == ParamTexts(Raw.Element(enc), raw) by {
        forall i | 0 <= i < |raw|
          ensures ParamTexts(Fixing.Element(enc), ps.value)[i] == ParamTexts(Raw.Element(enc), raw)[i]
        {
        }
      }
    }
  }

  /** FIXING routes a non-empty existing query through the query encoder with
      or without parameters: the result starts with its encoding, followed by
      nothing or by an '&'. */
  lemma FixingEncodesExistingQuery(enc: Utf8UrlEncoder, query: Option<string>, ps: Option<seq<Param>>)
    requires IsNonEmpty(query)
    ensures var e := enc.encodeQuery(query.value);
      var r := Fixing.EncodeQuery(enc, query, ps).value;
      if IsNonEmptyList(ps) then e + "&" <= r else r == e
  {
  }

  /** The existing query does not go through the element encoder: changing
      that encoder changes nothing when there are no parameters. */
  lemma ExistingQueryIgnoresElementEncoder(enc: Utf8UrlEncoder, other: string -> string,
                                           query: Option<string>, ps: Option<seq<Param>>)
    requires !IsNonEmptyList(ps)
    ensures Fixing.EncodeQuery(enc, query, ps)
         == Fixing.EncodeQuery(enc.(encodeQueryElement := other), query, ps)
  {
  }

  /** RAW hands back a non-empty query unchanged when no parameters come with it. */
  lemma RawPassesQueryThrough(enc: Utf8UrlEncoder, query: Option<string>, ps: Option<seq<Param>>)
    requires IsNonEmpty(query) && !IsNonEmptyList(ps)
    ensures Raw.EncodeQuery(enc, query, ps) == query
  {
  }

  /** RAW leaves a URI with no path, no query and no parameters as it is. */
  lemma RawEncodesEmptyUriToItself(enc: Utf8UrlEncoder, uri: Uri, ps: Option<seq<Param>>)
    requires uri.path.None? && uri.query.None? && !IsNonEmptyList(ps)
    ensures Raw.Encode(enc, uri, ps) == uri
  {
  }

  /** An existing query and one parameter, under RAW. */
  lemma RawQueryAndParamExample(enc: Utf8UrlEncoder)
    ensures Raw.EncodeQuery(enc, Some("foo=bar"), Some([Param("baz", Some("qux"))]))
         == Some("foo=bar&baz=qux")
  {
    var ps := [Param("baz", Some("qux"))];
    assert ParamText(Verbatim, ps[0]) == "baz=qux";
    assert ParamTexts(Verbatim, ps) == ["baz=qux"];
    assert Raw.Element(enc) == Verbatim;
    assert [Raw.WithQueryWithoutParams(enc, "foo=bar")] + ParamTexts(Verbatim, ps) == ["foo=bar", "baz=qux"];
    assert Join(["foo=bar", "baz=qux"]) == "foo=bar" + "&" + "baz=qux";
    assert "foo=bar" + "&" + "baz=qux" == "foo=bar&baz=qux";
  }

  /** A parameter with a null value renders as its bare name, under RAW. */
  lemma RawValuelessParamExample(enc: Utf8UrlEncoder)
    ensures Raw.EncodeQuery(enc, None, Some([Param("a", None), Param("b", Some("2"))]))
         == Some("a&b=2")
  {
    var ps := [Param("a", None), Param("b", Some("2"))];
    assert ParamText(Verbatim, ps[0]) == "a";
    assert ParamText(Verbatim, ps[1]) == "b=2";
    assert ParamTexts(Verbatim, ps) == ["a", "b=2"];
    assert Raw.Element(enc) == Verbatim;
    assert Join(["a", "b=2"]) == "a" + "&" + "b=2";
    assert "a" + "&" + "b=2" == "a&b=2";
  }

  /** The trim drops the last '&' only: a last parameter with an empty name
      and no value still leaves the query ending in '&'. */
  lemma RawTrailingSeparatorExample(enc: Utf8UrlEncoder)
    ensures Raw.EncodeQuery(enc, None, Some([Param("a", None), Param("", None)]))
         == Some("a&")
  {
    var ps := [Param("a", None), Param("", None)];
    assert ParamText(Verbatim, ps[0]) == "a";
    assert ParamText(Verbatim, ps[1]) == "";
    assert ParamTexts(Verbatim, ps) == ["a", ""];
    assert Raw.Element(enc) == Verbatim;
    assert Join(["a", ""]) == "a" + "&" + "";
    assert "a" + "&" + "" == "a&";
  }
}
