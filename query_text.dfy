/** The text of a query component. How one parameter is rendered, how the
    rendered parameters are joined with '&' (the reference definition), what
    the builder loop leaves in its buffer (every parameter followed by '&'),
    and the two readers that take a query apart again: Split on '&' and
    SplitParam on the first '='. */
module QueryText {
  import opened Collaborators

  /** The token transform of the RAW strategy: names and values go in as they are. */
  function Verbatim(s: string): string {
    s
  }

  /** One parameter as `name`, or as `name=value` when the value is not null;
      each token is passed through `elem` on its own, the '=' never is. */
  function ParamText(elem: string -> string, p: Param): string {
    elem(p.name) + (if p.value.Some? then "=" + elem(p.value.value) else "")
  }

  /** The rendered parameters, in list order. */
  function ParamTexts(elem: string -> string, ps: seq<Param>): seq<string> {
    seq(|ps|, i requires 0 <= i < |ps| => ParamText(elem, ps[i]))
  }

  /** The reference join: the pieces in order with one '&' between neighbours
      and none before the first or after the last. */
  function Join(pieces: seq<string>): string
    decreases |pieces|
  {
    if |pieces| == 0 then ""
    else if |pieces| == 1 then pieces[0]
    else pieces[0] + "&" + Join(pieces[1..])
  }

  /** What the append loop has written after going through `ps`: each
      rendered parameter followed by its own '&'. */
  function Appended(elem: string -> string, ps: seq<Param>): string
    decreases |ps|
  {
    if |ps| == 0 then ""
    else Appended(elem, ps[..|ps| - 1]) + ParamText(elem, ps[|ps| - 1]) + "&"
  }

  /** Splits a query at every '&'; there is always at least one segment and
      no segment holds an '&'. */
  function Split(s: string): (r: seq<string>)
    ensures |r| > 0
    ensures forall i :: 0 <= i < |r| ==> '&' !in r[i]
    decreases |s|
  {
    if |s| == 0 then [""]
    else
      var rest := Split(s[1..]);
      if s[0] == '&' then [""] + rest
      else [[s[0]] + rest[0]] + rest[1..]
  }

  /** Number of '&' chars in `s`. */
  function AmpCount(s: string): nat
    decreases |s|
  {
    if |s| == 0 then 0 else (if s[0] == '&' then 1 else 0) + AmpCount(s[1..])
  }

  /** Reads a rendered parameter back: the text before the first '=' and,
      if there is an '=', the text after it. */
  function SplitParam(s: string): (string, Option<string>)
    decreases |s|
  {
    if |s| == 0 then ("", None)
    else if s[0] == '=' then ("", Some(s[1..]))
    else
      var (n, v) := SplitParam(s[1..]);
      ([s[0]] + n, v)
  }

  /** Every rendered parameter is free of '&'. */
  predicate AmpFree(texts: seq<string>) {
    forall i :: 0 <= i < |texts| ==> '&' !in texts[i]
  }

  function MapOption(f: string -> string, o: Option<string>): Option<string> {
    if o.Some? then Some(f(o.value)) else None
  }

  // ---------------------------------------------------------------------
  // The builder: terminate every parameter with '&', then drop one char.
  // ---------------------------------------------------------------------

  lemma {:induction false} JoinSnoc(pieces: seq<string>, x: string)
    requires |pieces| > 0
    ensures Join(pieces + [x]) == Join(pieces) + "&" + x
    decreases |pieces|
  {
    if |pieces| == 1 {
      assert pieces + [x] == [pieces[0], x];
      assert [pieces[0], x][1..] == [x];
    } else {
      assert (pieces + [x])[1..] == pieces[1..] + [x];
      JoinSnoc(pieces[1..], x);
    }
  }

  lemma ParamTextsSnoc(elem: string -> string, ps: seq<Param>)
    requires |ps| > 0
    ensures ParamTexts(elem, ps) == ParamTexts(elem, ps[..|ps| - 1]) + [ParamText(elem, ps[|ps| - 1])]
  {
  }

  /** The append loop leaves the reference join followed by exactly one '&'. */
  lemma {:induction false} AppendedIsTerminatedJoin(elem: string -> string, ps: seq<Param>)
    requires |ps| > 0
    ensures Appended(elem, ps) == Join(ParamTexts(elem, ps)) + "&"
    decreases |ps|
  {
    var n := |ps|;
    var init := ps[..n - 1];
    ParamTextsSnoc(elem, ps);
    if n == 1 {
      assert Appended(elem, init) == "";
      assert ParamTexts(elem, ps) == [ParamText(elem, ps[0])];
    } else {
      AppendedIsTerminatedJoin(elem, init);
      JoinSnoc(ParamTexts(elem, init), ParamText(elem, ps[n - 1]));
    }
  }

  /** A buffer holding the parameters alone, after its last char is dropped,
      is the reference join of the rendered parameters. */
  lemma TrimmedParams(elem: string -> string, ps: seq<Param>)
    requires |ps| > 0
    ensures |Appended(elem, ps)| > 0
    ensures Appended(elem, ps)[..|Appended(elem, ps)| - 1] == Join(ParamTexts(elem, ps))
  {
    AppendedIsTerminatedJoin(elem, ps);
  }

  /** A buffer holding `head`, an '&' and the parameters, after its last char
      is dropped, is the reference join of `head` and the rendered parameters;
      with no parameters the dropped char is the '&' after `head`. */
  lemma TrimmedHeadAndParams(head: string, elem: string -> string, ps: seq<Param>)
    ensures var b := head + "&" + Appended(elem, ps);
      |b| > 0 && b[..|b| - 1] == Join([head] + ParamTexts(elem, ps))
  {
    var b := head + "&" + Appended(elem, ps);
    if |ps| == 0 {
      assert [head] + ParamTexts(elem, ps) == [head];
      assert b == head + "&";
    } else {
      AppendedIsTerminatedJoin(elem, ps);
      var texts := ParamTexts(elem, ps);
      assert ([head] + texts)[1..] == texts;
      assert b == (head + "&" + Join(texts)) + "&";
    }
  }

  // ---------------------------------------------------------------------
  // Split is the inverse of Join on '&'-free pieces, and Join of Split.
  // ---------------------------------------------------------------------

  lemma {:induction false} SplitFree(t: string)
    requires '&' !in t
    ensures Split(t) == [t]
    decreases |t|
  {
    if |t| > 0 {
      assert '&' !in t[1..] by {
        forall i | 0 <= i < |t[1..]| ensures t[1..][i] != '&' {
          assert t[1..][i] == t[i + 1];
        }
      }
      SplitFree(t[1..]);
      assert [t[0]] + t[1..] == t;
    }
  }

  /** Splitting at an '&' between `a` and `b` splits each side on its own. */
  lemma {:induction false} SplitAround(a: string, b: string)
    ensures Split(a + "&" + b) == Split(a) + Split(b)
    decreases |a|
  {
    var s := a + "&" + b;
    if |a| == 0 {
      assert s == "&" + b;
      assert s[1..] == b;
    } else {
      assert s[1..] == a[1..] + "&" + b;
      SplitAround(a[1..], b);
    }
  }

  /** Join then Split gives back the pieces, when no piece holds an '&'. */
  lemma {:induction false} SplitJoin(pieces: seq<string>)
    requires |pieces| > 0
    requires AmpFree(pieces)
    ensures Split(Join(pieces)) == pieces
    decreases |pieces|
  {
    SplitFree(pieces[0]);
    if |pieces| > 1 {
      SplitJoin(pieces[1..]);
      SplitAround(pieces[0], Join(pieces[1..]));
      assert [pieces[0]] + pieces[1..] == pieces;
    }
  }

  /** Split then Join gives back the text, whatever it holds. */
  lemma {:induction false} JoinSplit(s: string)
    ensures Join(Split(s)) == s
    decreases |s|
  {
    if |s| > 0 {
      JoinSplit(s[1..]);
      var rest := Split(s[1..]);
      if s[0] == '&' {
        assert ([""] + rest)[1..] == rest;
        assert s == "&" + s[1..];
      } else {
        var r := [[s[0]] + rest[0]] + rest[1..];
        if |rest| == 1 {
          assert s == [s[0]] + rest[0];
        } else {
          assert r[1..] == rest[1..];
          assert Join(rest) == rest[0] + "&" + Join(rest[1..]);
          assert s == [s[0]] + s[1..];
        }
      }
    }
  }

  /** A text with k '&' chars splits into k + 1 segments. */
  lemma {:induction false} SplitLength(s: string)
    ensures |Split(s)| == AmpCount(s) + 1
    decreases |s|
  {
    if |s| > 0 {
      SplitLength(s[1..]);
    }
  }

  // ---------------------------------------------------------------------
  // A rendered parameter reads back as its name and (absent) value.
  // ---------------------------------------------------------------------

  lemma {:induction false} SplitParamOfName(t: string, rest: Option<string>)
    requires '=' !in t
    ensures SplitParam(t + (if rest.Some? then "=" + rest.value else "")) == (t, rest)
    decreases |t|
  {
    var s := t + (if rest.Some? then "=" + rest.value else "");
    if |t| == 0 {
      assert s == (if rest.Some? then "=" + rest.value else "");
      if rest.Some? {
        assert s[1..] == rest.value;
      }
    } else {
      assert '=' !in t[1..] by {
        forall i | 0 <= i < |t[1..]| ensures t[1..][i] != '=' {
          assert t[1..][i] == t[i + 1];
        }
      }
      SplitParamOfName(t[1..], rest);
      assert s[1..] == t[1..] + (if rest.Some? then "=" + rest.value else "");
      assert [t[0]] + t[1..] == t;
    }
  }

  /** A parameter renders so that its name and value can be read back: a
      null value leaves no '=' at all, so it is told apart from an empty value. */
  lemma ParamTextRoundTrip(elem: string -> string, p: Param)
    requires '=' !in elem(p.name)
    ensures SplitParam(ParamText(elem, p)) == (elem(p.name), MapOption(elem, p.value))
  {
    SplitParamOfName(elem(p.name), MapOption(elem, p.value));
  }
}
