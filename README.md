# UriEncoder: query and path re-encoding for an HTTP client

This project models `UriEncoder`, the enumeration an HTTP client uses to
rebuild a request URI from a parsed `Uri` and an ordered list of extra query
parameters (`Param`: a name and a value that may be null). It has two
strategies, chosen once by `uriEncoder(disableUrlEncoding)`:

- **FIXING** percent-encodes the path, the existing query and each parameter
  name and value. It does this through the `UTF8UrlEncoder` primitives.
- **RAW** passes all content through and only adds the `=` and `&` delimiters.

`encode` keeps the scheme, user info, host and port. It replaces the path by
`encodePath(path)` and the query by `encodeQuery(query, params)`. The query
composition has three cases:

- a non-empty query with parameters gives `query & params`;
- a non-empty query without parameters gives the query alone;
- no query with parameters gives the parameters alone.

With neither a query nor parameters the new query is null. The parameter
routines write every parameter followed by `&` into a `StringBuilder`, then
cut the buffer by one char.

Layout:

- `collaborators.dfy` (module `Collaborators`): `Option` for Java null, `Param`,
  `Uri`, a `StringBuilder` class (append, setLength, toString), `isNonEmpty`,
  and `Utf8UrlEncoder`. The last one is a record of three arbitrary functions
  standing for `encodePath`, `encodeAndAppendQuery` and
  `encodeAndAppendQueryElement`. No concrete escape is assumed. A few lemmas
  state conditions on the encoders' output: `FixingIsRawOfEncoded` needs a
  non-empty query to encode to a non-empty text, and `QuerySegments`,
  `SeparatorCount` and `ParamSegment` need the encoded names and values to
  hold no `&` (or, for names, no `=`).
- `query_text.dfy` (module `QueryText`): how one parameter is rendered
  (`ParamText`) and the reference join on `&` (`Join`). It also has what the
  append loop leaves behind (`Appended`: every parameter followed by `&`) and
  two readers that take a query apart again: `Split` on `&` and `SplitParam`
  on the first `=`.
- `uri_encoding.dfy` (module `UriEncoding`): `datatype UriEncoder = Fixing | Raw`
  with the pure dispatch (`encodePath`, `withQuery`, `withoutQuery`,
  `encodeQuery`, `encode`) and the per-strategy query texts, plus the lemmas
  relating them.
- `fixing_encoder.dfy`, `raw_encoder.dfy`: each strategy's `StringBuilder`
  routines as imperative methods with a loop over the parameters. Each is
  proved equal to the matching function of `UriEncoding`.

## Notes on the source

- `src/main/java/com/ning/http/util/UriEncoder.java:95` reads `b.append('&')`.
  No `b` is declared there. The only builder in scope is `sb`, so the model
  appends the `&` to `sb` (see `RawEncoder.WithQueryWithParams`).
- One might expect the built query never to end in `&`. The code does not
  guarantee it: the trim removes exactly one char, so a last parameter with an
  empty name and a null value leaves a trailing `&`
  (`RawTrailingSeparatorExample`: `a&`). `QuerySegments` and `SeparatorCount`
  state what does hold.
- FIXING sends an existing query through `encodeAndAppendQuery`, a different
  primitive from the element encoder used for names and values
  (`ExistingQueryIgnoresElementEncoder`). Nothing assumes that the query
  encoder escapes `&` or `=`.

## Model

| member | source | states |
|---|---|---|
| UriEncoding.UriEncoderFor | src/main/java/com/ning/http/util/UriEncoder.java:115-117 | RAW exactly when URL encoding is disabled, FIXING exactly when it is not; no third strategy exists |
| UriEncoding.UriEncoder.EncodePath | src/main/java/com/ning/http/util/UriEncoder.java:75-77 | RAW returns the path unchanged, a null path included; FIXING gives the path to the path encoder |
| UriEncoding.UriEncoder.WithQuery | src/main/java/com/ning/http/util/UriEncoder.java:125-127 | the rendered query is a prefix of the result; the result is longer than it exactly when the parameter list is non-empty, and then it is the rendered query, one `&` and the parameters' own join |
| UriEncoding.UriEncoder.WithQueryWithoutParams | src/main/java/com/ning/http/util/UriEncoder.java:101-104 | RAW returns the query as it is; FIXING returns the query encoder's text for it (lines 57-62) |
| UriEncoding.UriEncoder.WithQueryWithParams | src/main/java/com/ning/http/util/UriEncoder.java:91-99 | the query followed by one `&` and the `&`-join of the parameters, for both strategies (FIXING at lines 47-55); with an empty list the query alone |
| UriEncoding.UriEncoder.WithoutQueryWithParams | src/main/java/com/ning/http/util/UriEncoder.java:106-112 | the `&`-join of the rendered parameters (FIXING at lines 64-70): splitting it on `&` gives the rendered parameters back, in list order, when none holds an `&` |
| UriEncoding.UriEncoder.WithoutQuery | src/main/java/com/ning/http/util/UriEncoder.java:129-131 | without an existing query, a query is produced exactly when the parameter list is non-null and non-empty |
| UriEncoding.UriEncoder.EncodeQuery | src/main/java/com/ning/http/util/UriEncoder.java:146-148 | the new query is null exactly when the old query is null or empty and the parameter list is null or empty |
| UriEncoding.UriEncoder.Encode | src/main/java/com/ning/http/util/UriEncoder.java:133-142 | scheme, user info, host and port are copied; only path and query are replaced; the new query is null exactly when both inputs are empty |
| UriEncoding.QuerySegments | src/main/java/com/ning/http/util/UriEncoder.java:47-55 | split on `&`, the new query gives the old query's segments (if there was a query), then one segment per parameter in list order. Holds when no rendered parameter contains `&` |
| UriEncoding.SeparatorCount | src/main/java/com/ning/http/util/UriEncoder.java:106-112 | the new query has n - 1 `&` between n parameters, one more after an existing query, and no others besides the query's own |
| UriEncoding.ParamSegment | src/main/java/com/ning/http/util/UriEncoder.java:79-84 | each parameter's segment reads back as its transformed name and value; a null value leaves no `=`, so it differs from an empty value |
| UriEncoding.FixingIsRawOfEncoded | src/main/java/com/ning/http/util/UriEncoder.java:33-40 | FIXING gives the same query as RAW applied to pre-encoded content (names and values encoded one by one), so the `=` and `&` it inserts never go through an encoder |
| UriEncoding.FixingEncodesExistingQuery | src/main/java/com/ning/http/util/UriEncoder.java:47-61 | under FIXING a non-empty query always goes through the query encoder; the result is that encoding alone, or that encoding followed by `&` and the parameters |
| UriEncoding.ExistingQueryIgnoresElementEncoder | src/main/java/com/ning/http/util/UriEncoder.java:57-62 | with no parameters, FIXING's result does not depend on the query-element encoder |
| UriEncoding.RawPassesQueryThrough | src/main/java/com/ning/http/util/UriEncoder.java:101-104 | RAW returns a non-empty query unchanged when there are no parameters |
| UriEncoding.RawEncodesEmptyUriToItself | src/main/java/com/ning/http/util/UriEncoder.java:129-131 | under RAW a URI with a null path, a null query and no parameters comes back unchanged |
| UriEncoding.RawQueryAndParamExample | src/main/java/com/ning/http/util/UriEncoder.java:91-99 | RAW with query `foo=bar` and parameter `baz=qux` gives `foo=bar&baz=qux` |
| UriEncoding.RawValuelessParamExample | src/main/java/com/ning/http/util/UriEncoder.java:79-84 | RAW with parameters `a` (null value) and `b=2` gives `a&b=2` |
| UriEncoding.RawTrailingSeparatorExample | src/main/java/com/ning/http/util/UriEncoder.java:106-112 | RAW with parameters `a` and an empty name, both without values, gives `a&`: the trim removes only one `&` |
| QueryText.AppendedIsTerminatedJoin | src/main/java/com/ning/http/util/UriEncoder.java:42-45 | for a non-empty list, the append loop leaves the `&`-join of the rendered parameters followed by exactly one `&` |
| QueryText.TrimmedParams | src/main/java/com/ning/http/util/UriEncoder.java:64-70 | dropping the last char of the parameter buffer gives exactly the `&`-join of the parameters |
| QueryText.TrimmedHeadAndParams | src/main/java/com/ning/http/util/UriEncoder.java:47-55 | dropping the last char of `query & parameters&` gives the `&`-join of the query and the parameters; with no parameters the dropped char is the `&` after the query |
| QueryText.ParamTextRoundTrip | src/main/java/com/ning/http/util/UriEncoder.java:33-40 | a rendered parameter splits at its first `=` back into the transformed name and value, with a null value still null |
| FixingEncoder.EncodeAndAppendQueryParam | src/main/java/com/ning/http/util/UriEncoder.java:33-40 | the buffer grows by the encoded name, then `=` and the encoded value only when the value is not null, then `&` |
| FixingEncoder.EncodeAndAppendQueryParams | src/main/java/com/ning/http/util/UriEncoder.java:42-45 | the buffer grows by every parameter, in list order, each followed by `&` |
| FixingEncoder.WithQueryWithParams | src/main/java/com/ning/http/util/UriEncoder.java:47-55 | the builder result equals the `&`-join of the encoded query and the encoded parameters |
| FixingEncoder.WithQueryWithoutParams | src/main/java/com/ning/http/util/UriEncoder.java:57-62 | the result is the query through the query encoder, not the element encoder |
| FixingEncoder.WithoutQueryWithParams | src/main/java/com/ning/http/util/UriEncoder.java:64-70 | the builder result equals the `&`-join of the encoded parameters |
| RawEncoder.AppendRawQueryParam | src/main/java/com/ning/http/util/UriEncoder.java:79-84 | the buffer grows by the name, then `=` and the value only when the value is not null, then `&` |
| RawEncoder.AppendRawQueryParams | src/main/java/com/ning/http/util/UriEncoder.java:86-89 | the buffer grows by every parameter, in list order, each followed by `&` |
| RawEncoder.WithQueryWithParams | src/main/java/com/ning/http/util/UriEncoder.java:91-99 | the builder result equals the `&`-join of the literal query and the literal parameters |
| RawEncoder.WithoutQueryWithParams | src/main/java/com/ning/http/util/UriEncoder.java:106-112 | the builder result equals the `&`-join of the literal parameters |

## Left out

- The `UTF8UrlEncoder` escape tables are not part of this model. The three
  primitives are arbitrary functions, so no concrete escape (such as `%20`) is
  stated. `encodeAndAppendQuery` and `encodeAndAppendQueryElement` are modelled
  as appending a text that depends only on their input.
- `StringUtils.stringBuilder()` hands out a reused, per-thread builder. It is
  modelled as a fresh empty `StringBuilder`; the reuse is a resource detail.
- The `Uri` constructor's validation and rendering are not modelled. `Uri` and
  `Param` are plain records.
- Parameter names are non-null strings. A null name is not modelled: the
  primitives' behaviour on it is not part of this model, and `append(null)`
  would write `null`.
- FixingEncoder.WithoutQueryWithParams, RawEncoder.WithoutQueryWithParams: they
  require a non-empty list. On an empty list the source throws from
  `setLength(-1)`; its callers never pass one.
- `UriEncoding.UriEncoder.EncodePath` under FIXING states only that the path goes to the
  path encoder. What `encodePath` does with a null path is not part of this model.
- The WebSocket echo test servers and `WebSocketByteFragmentListener` are
  network glue and a callback interface with no logic. They are not modelled.
