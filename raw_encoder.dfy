/** The RAW strategy's StringBuilder routines: names, values and the query
    are written as they are, with only the '=' and '&' delimiters added; the
    buffer is then cut by one char. Each result is proved equal to the
    corresponding function of UriEncoding. */
module RawEncoder {
  import opened Collaborators
  import opened QueryText
  import opened UriEncoding

  /** appendRawQueryParam */
  method AppendRawQueryParam(sb: StringBuilder, name: string, value: Option<string>)
    modifies sb
    ensures sb.chars == old(sb.chars) + ParamText(Verbatim, Param(name, value)) + "&"
  {
    sb.Append(name);
    if value.Some? {
      sb.Append("=");
      sb.Append(value.value);
    }
    sb.Append("&");
  }

  /** appendRawQueryParams */
  method AppendRawQueryParams(sb: StringBuilder, ps: seq<Param>)
    modifies sb
    ensures sb.chars == old(sb.chars) + Appended(Verbatim, ps)
  {
    for i := 0 to |ps|
      invariant sb.chars == old(sb.chars) + Appended(Verbatim, ps[..i])
    {
      assert ps[..i + 1][..i] == ps[..i];
      AppendRawQueryParam(sb, ps[i].name, ps[i].value);
    }
    assert ps[..|ps|] == ps;
  }

  /** withQueryWithParams: query, '&', the terminated parameters, then the
      last char dropped. The source writes the '&' after the query as
      `b.append('&')`, naming a builder `b` that is not declared anywhere;
      `sb`, the only builder in scope, is evidently meant, and that is what
      is modelled here. */
  method WithQueryWithParams(enc: Utf8UrlEncoder, query: string, ps: seq<Param>) returns (r: string)
    ensures r == Raw.WithQueryWithParams(enc, query, ps)
  {
    var sb := new StringBuilder();
    sb.Append(query);
    sb.Append("&");
    AppendRawQueryParams(sb, ps);
    TrimmedHeadAndParams(query, Verbatim, ps);
    sb.SetLength(|sb.chars| - 1);
    r := sb.ToString();
  }

  /** withoutQueryWithParams: the terminated parameters with the last char
      dropped; an empty list would make the source's setLength(-1) throw. */
  method WithoutQueryWithParams(enc: Utf8UrlEncoder, ps: seq<Param>) returns (r: string)
    requires |ps| > 0
    ensures r == Raw.WithoutQueryWithParams(enc, ps)
  {
    var sb := new StringBuilder();
    AppendRawQueryParams(sb, ps);
    TrimmedParams(Verbatim, ps);
    sb.SetLength(|sb.chars| - 1);
    r := sb.ToString();
  }
}
