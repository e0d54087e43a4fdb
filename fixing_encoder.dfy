/** The FIXING strategy's StringBuilder routines: every parameter is written
    as its encoded name, '=' and encoded value when the value is not null,
    then '&'; the query is written through the query encoder; the buffer is
    then cut by one char. Each result is proved equal to the corresponding
    function of UriEncoding. */
module FixingEncoder {
  import opened Collaborators
  import opened QueryText
  import opened UriEncoding

  /** encodeAndAppendQueryParam */
  method EncodeAndAppendQueryParam(sb: StringBuilder, enc: Utf8UrlEncoder, name: string, value: Option<string>)
    modifies sb
    ensures sb.chars == old(sb.chars) + ParamText(enc.encodeQueryElement, Param(name, value)) + "&"
  {
    sb.Append(enc.encodeQueryElement(name));
    if value.Some? {
      sb.Append("=");
      sb.Append(enc.encodeQueryElement(value.value));
    }
    sb.Append("&");
  }

  /** encodeAndAppendQueryParams */
  method EncodeAndAppendQueryParams(sb: StringBuilder, enc: Utf8UrlEncoder, ps: seq<Param>)
    modifies sb
    ensures sb.chars == old(sb.chars) + Appended(enc.encodeQueryElement, ps)
  {
    for i := 0 to |ps|
      invariant sb.chars == old(sb.chars) + Appended(enc.encodeQueryElement, ps[..i])
    {
      assert ps[..i + 1][..i] == ps[..i];
      EncodeAndAppendQueryParam(sb, enc, ps[i].name, ps[i].value);
    }
    assert ps[..|ps|] == ps;
  }

  /** withQueryWithParams: encoded query, '&', the terminated parameters,
      then the last char dropped. */
  method WithQueryWithParams(enc: Utf8UrlEncoder, query: string, ps: seq<Param>) returns (r: string)
    ensures r == Fixing.WithQueryWithParams(enc, query, ps)
  {
    var sb := new StringBuilder();
    sb.Append(enc.encodeQuery(query));
    sb.Append("&");
    EncodeAndAppendQueryParams(sb, enc, ps);
    TrimmedHeadAndParams(enc.encodeQuery(query), enc.encodeQueryElement, ps);
    sb.SetLength(|sb.chars| - 1);
    r := sb.ToString();
  }

  /** withQueryWithoutParams: the query through the query encoder, not the
      element encoder. */
  method WithQueryWithoutParams(enc: Utf8UrlEncoder, query: string) returns (r: string)
    ensures r == Fixing.WithQueryWithoutParams(enc, query)
  {
    var sb := new StringBuilder();
    sb.Append(enc.encodeQuery(query));
    r := sb.ToString();
  }

  /** withoutQueryWithParams: the terminated parameters with the last char
      dropped; an empty list would make the source's setLength(-1) throw. */
  method WithoutQueryWithParams(enc: Utf8UrlEncoder, ps: seq<Param>) returns (r: string)
    requires |ps| > 0
    ensures r == Fixing.WithoutQueryWithParams(enc, ps)
  {
    var sb := new StringBuilder();
    EncodeAndAppendQueryParams(sb, enc, ps);
    TrimmedParams(enc.encodeQueryElement, ps);
    sb.SetLength(|sb.chars| - 1);
    r := sb.ToString();
  }
}
