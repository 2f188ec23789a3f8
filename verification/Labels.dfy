/** Escaping of metric label values: three whole-string replacements, and the rules they meet
    (Prometheus text exposition format 0.0.4, "Text format details"). */
module Labels {

  /** `str::replace` of one character. */
  function Replace(v: string, c: char, text: string): string {
    if v == "" then "" else (if v[0] == c then text else [v[0]]) + Replace(v[1..], c, text)
  }

  function EscapeLabel(v: string): string {
    Replace(Replace(Replace(v, '\\', "\\\\"), '"', "\\\""), '\n', "\\n")
  }

  /** The label-value rules, character by character. */
  function EscapeChar(c: char): string {
    if c == '\\' then "\\\\"
    else if c == '"' then "\\\""
    else if c == '\n' then "\\n"
    else [c]
  }

  function EscapeEach(v: string): string {
    if v == "" then "" else EscapeChar(v[0]) + EscapeEach(v[1..])
  }

  lemma {:induction false} ReplaceJoin(a: string, b: string, c: char, text: string)
    ensures Replace(a + b, c, text) == Replace(a, c, text) + Replace(b, c, text)
  {
    if a == "" {
      assert a + b == b;
    } else {
      ReplaceJoin(a[1..], b, c, text);
      assert (a + b)[1..] == a[1..] + b;
    }
  }

  lemma ReplaceOne(x: char, c: char, text: string)
    ensures Replace([x], c, text) == if x == c then text else [x]
  {
    assert [x][1..] == "";
    assert Replace("", c, text) == "";
  }

  lemma ReplaceTwo(x: char, y: char, c: char, text: string)
    ensures Replace([x, y], c, text) == (if x == c then text else [x]) + (if y == c then text else [y])
  {
    assert [x, y] == [x] + [y];
    ReplaceJoin([x], [y], c, text);
    ReplaceOne(x, c, text);
    ReplaceOne(y, c, text);
  }

  /** In this order, later replacements leave the output of earlier ones alone. */
  lemma EscapeOne(x: char)
    ensures EscapeLabel([x]) == EscapeChar(x)
  {
    ReplaceOne(x, '\\', "\\\\");
    ReplaceOne(x, '"', "\\\"");
    ReplaceOne(x, '\n', "\\n");
    ReplaceTwo('\\', '\\', '"', "\\\"");
    ReplaceTwo('\\', '\\', '\n', "\\n");
    ReplaceTwo('\\', '"', '\n', "\\n");
  }

  /** The three whole-string replacements are the one-pass escape. */
  lemma {:induction false} EscapeIsOnePass(v: string)
    ensures EscapeLabel(v) == EscapeEach(v)
  {
    hide EscapeChar;
    if v != "" {
      var x, rest := [v[0]], v[1..];
      assert v == x + rest;
      var a, b := Replace(x, '\\', "\\\\"), Replace(rest, '\\', "\\\\");
      ReplaceJoin(x, rest, '\\', "\\\\");
      ReplaceJoin(a, b, '"', "\\\"");
      ReplaceJoin(Replace(a, '"', "\\\""), Replace(b, '"', "\\\""), '\n', "\\n");
      assert EscapeLabel(v) == EscapeLabel(x) + EscapeLabel(rest);
      EscapeOne(v[0]);
      EscapeIsOnePass(rest);
    }
  }

  /** The order matters: replacing backslashes last would escape the quote's own backslash. */
  lemma OtherOrderDiffers()
    ensures Replace(Replace("\"", '"', "\\\""), '\\', "\\\\") == "\\\\\"" != EscapeLabel("\"")
  {
    ReplaceOne('"', '"', "\\\"");
    ReplaceTwo('\\', '"', '\\', "\\\\");
    EscapeOne('"');
  }

  /** What a reader of the exposition format does. */
  function Unescape(w: string): string
  {
    if |w| < 2 then w
    else if w[0] == '\\' then (if w[1] == 'n' then "\n" else [w[1]]) + Unescape(w[2..])
    else [w[0]] + Unescape(w[1..])
  }

  lemma {:induction false} UnescapeInverts(v: string)
    ensures Unescape(EscapeLabel(v)) == v
  {
    EscapeIsOnePass(v);
    UnescapeEach(v);
  }

  lemma {:induction false} UnescapeEach(v: string)
    ensures Unescape(EscapeEach(v)) == v
  {
    if v != "" {
      var e, rest := EscapeChar(v[0]), EscapeEach(v[1..]);
      UnescapeEach(v[1..]);
      assert EscapeEach(v)[|e|..] == rest;
      if |e| == 2 {
        assert EscapeEach(v)[0] == e[0] && EscapeEach(v)[1] == e[1];
      } else {
        assert EscapeEach(v)[0] == v[0] && EscapeEach(v)[1..] == rest;
        if rest == "" { assert EscapeEach(v) == [v[0]] && v[1..] == ""; }
      }
      assert v == [v[0]] + v[1..];
    }
  }

  /** A label value as the format wants it between quotes: no line feed, every quote and every
      backslash part of an escape. */
  predicate Quotable(w: string) {
    if w == "" then true
    else if w[0] == '\\' then |w| >= 2 && w[1] in {'\\', '"', 'n'} && Quotable(w[2..])
    else w[0] != '"' && w[0] != '\n' && Quotable(w[1..])
  }

  lemma {:induction false} EscapedIsQuotable(v: string)
    ensures Quotable(EscapeLabel(v))
  {
    EscapeIsOnePass(v);
    EachIsQuotable(v);
  }

  lemma {:induction false} EachIsQuotable(v: string)
    ensures Quotable(EscapeEach(v))
  {
    if v != "" {
      var e, rest := EscapeChar(v[0]), EscapeEach(v[1..]);
      EachIsQuotable(v[1..]);
      assert EscapeEach(v)[|e|..] == rest;
      assert EscapeEach(v)[0] == e[0];
      assert |e| == 2 ==> EscapeEach(v)[1] == e[1];
    }
  }

  /** Distinct label values stay distinct. */
  lemma EscapeInjective(a: string, b: string)
    requires EscapeLabel(a) == EscapeLabel(b)
    ensures a == b
  {
    UnescapeInverts(a);
    UnescapeInverts(b);
  }
}
