/** The collaborators the URI encoder is built on: the parsed URI, the query
    parameter record, Java's StringBuilder, MiscUtils.isNonEmpty and the
    UTF-8 percent-encoding primitives, whose internals are not part of this
    model and enter it as opaque functions. */
module Collaborators {

  /** A Java reference that may be null. */
  datatype Option<T> = None | Some(value: T)

  /** A query parameter: a name and a value that may be null. */
  datatype Param = Param(name: string, value: Option<string>)

  /** The parsed URI; only path and query are ever replaced by the encoder.
      A port of -1 stands for "no explicit port", as in the URI class. */
  datatype Uri = Uri(
    scheme: string,
    userInfo: Option<string>,
    host: string,
    port: int,
    path: Option<string>,
    query: Option<string>)

  /** The three UTF8UrlEncoder primitives the FIXING strategy calls. Their
      escape tables are not part of this model, so they are carried as
      arbitrary functions and no concrete escape is assumed; the few lemmas
      that need more state it as a condition on their output (a non-empty
      query encodes to a non-empty text, encoded names and values hold no
      '&' or '=').
      `encodeQuery` is the text `encodeAndAppendQuery` appends, and
      `encodeQueryElement` the text `encodeAndAppendQueryElement` appends. */
  datatype Utf8UrlEncoder = Utf8UrlEncoder(
    encodePath: Option<string> -> Option<string>,
    encodeQuery: string -> string,
    encodeQueryElement: string -> string)

  /** MiscUtils.isNonEmpty on a string: not null and not empty. */
  predicate IsNonEmpty(s: Option<string>) {
    s.Some? && |s.value| > 0
  }

  /** MiscUtils.isNonEmpty on a list: not null and not empty. */
  predicate IsNonEmptyList(ps: Option<seq<Param>>) {
    ps.Some? && |ps.value| > 0
  }

  /** java.lang.StringBuilder, reduced to the three operations the encoder
      uses: append, setLength and toString. */
  class StringBuilder {
    var chars: string

    /** A fresh, empty builder (what StringUtils.stringBuilder() hands out). */
    constructor ()
      ensures chars == []
    {
      chars := [];
    }

    method Append(s: string)
      modifies this
      ensures chars == old(chars) + s
    {
      chars := chars + s;
    }

    /** Truncates to `n` chars, or pads with NUL chars up to `n`; a negative
        length throws in Java, so callers must not ask for one. */
    method SetLength(n: int)
      requires 0 <= n
      modifies this
      ensures n <= |old(chars)| ==> chars == old(chars)[..n]
      ensures n > |old(chars)| ==> chars == old(chars) + seq(n - |old(chars)|, _ => '\0')
    {
      if n <= |chars| {
        chars := chars[..n];
      } else {
        chars := chars + seq(n - |chars|, _ => '\0');
      }
    }

    function ToString(): string
      reads this
    {
      chars
    }
  }
}
