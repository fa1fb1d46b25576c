/**
 * Placeholder substitution of the translation service
 * (src/app/services/translation.service.ts, translate): every match of the
 * regular expression `\{\{(\w+)\}\}`, found left to right without overlap, is
 * replaced by the parameter of that name when it is present and non-empty, and
 * kept as it is otherwise.
 */
module Placeholders {

  /** A piece of a template: one character of text, or a `{{name}}` placeholder. */
  datatype Piece = Text(c: char) | Hole(name: string)

  /** `\w` without the unicode flag: ASCII letters, digits and underscore. */
  predicate IsWordChar(c: char) {
    ('a' <= c <= 'z') || ('A' <= c <= 'Z') || ('0' <= c <= '9') || c == '_'
  }

  /** A placeholder name: one or more word characters. */
  predicate IsName(w: string) {
    |w| > 0 && forall i :: 0 <= i < |w| ==> IsWordChar(w[i])
  }

  /** Length of the longest prefix of `s` made of word characters. */
  function WordRun(s: string): (n: nat)
    ensures n <= |s|
    ensures forall i :: 0 <= i < n ==> IsWordChar(s[i])
    ensures n < |s| ==> !IsWordChar(s[n])
  {
    if s != [] && IsWordChar(s[0]) then 1 + WordRun(s[1..]) else 0
  }

  /** Length of the name of a placeholder that starts `s`, or 0 when `s` does not start with one. */
  function PlaceholderNameLength(s: string): (n: nat)
    ensures n > 0 ==> n + 4 <= |s| && s[..2] == "{{" && IsName(s[2..n + 2]) && s[n + 2..n + 4] == "}}"
  {
    if |s| >= 2 && s[0] == '{' && s[1] == '{' then
      var n := WordRun(s[2..]);
      if n > 0 && n + 4 <= |s| && s[n + 2] == '}' && s[n + 3] == '}' then n else 0
    else 0
  }

  /** Split a string into text and placeholders the way a global regular-expression scan does. */
  function Parse(s: string): (ps: seq<Piece>)
    ensures forall i :: 0 <= i < |ps| && ps[i].Hole? ==> IsName(ps[i].name)
    decreases |s|
  {
    if s == [] then []
    else
      var n := PlaceholderNameLength(s);
      if n > 0 then [Hole(s[2..n + 2])] + Parse(s[n + 4..])
      else [Text(s[0])] + Parse(s[1..])
  }

  /** The placeholder as written in the template. */
  function Spelled(name: string): string {
    "{{" + name + "}}"
  }

  /** The string a sequence of pieces was parsed from. */
  function Render(ps: seq<Piece>): string {
    if ps == [] then ""
    else
      (match ps[0]
       case Text(c) => [c]
       case Hole(name) => Spelled(name))
      + Render(ps[1..])
  }

  /** `params[name] || match`: a present, non-empty parameter replaces its placeholder. */
  function Replacement(name: string, params: map<string, string>): string {
    if name in params && params[name] != "" then params[name] else Spelled(name)
  }

  /** The pieces with every placeholder replaced. */
  function Fill(ps: seq<Piece>, params: map<string, string>): string {
    if ps == [] then ""
    else
      (match ps[0]
       case Text(c) => [c]
       case Hole(name) => Replacement(name, params))
      + Fill(ps[1..], params)
  }

  /**
   * `s.replace(/\{\{(\w+)\}\}/g, (match, name) => params[name] || match)`. Placeholders
   * whose parameter is missing or empty are left verbatim, so with no usable parameter
   * the string comes back unchanged.
   */
  function Substitute(s: string, params: map<string, string>): (r: string)
    ensures (forall name :: name in params ==> params[name] == "") ==> r == s
  {
    FillWithoutValues(Parse(s), params);
    RenderParse(s);
    Fill(Parse(s), params)
  }

  /** Parsing loses nothing: the pieces spell out the original string. */
  lemma {:induction false} RenderParse(s: string)
    ensures Render(Parse(s)) == s
    decreases |s|
  {
    if s != [] {
      var n := PlaceholderNameLength(s);
      if n > 0 {
        var name, rest := s[2..n + 2], s[n + 4..];
        ParsePlaceholderStep(s);
        RenderParse(rest);
        SpelledSplit(s, n);
      } else {
        ParseTextStep(s);
        RenderParse(s[1..]);
        assert s == [s[0]] + s[1..];
      }
    }
  }

  lemma ParsePlaceholderStep(s: string)
    requires PlaceholderNameLength(s) > 0
    ensures var n := PlaceholderNameLength(s);
      Parse(s) == [Hole(s[2..n + 2])] + Parse(s[n + 4..])
  {
  }

  lemma ParseTextStep(s: string)
    requires s != [] && PlaceholderNameLength(s) == 0
    ensures Parse(s) == [Text(s[0])] + Parse(s[1..])
  {
  }

  lemma SpelledSplit(s: string, n: nat)
    requires n > 0 && n == PlaceholderNameLength(s)
    ensures s == Spelled(s[2..n + 2]) + s[n + 4..]
  {
    assert s == s[..2] + s[2..n + 2] + s[n + 2..n + 4] + s[n + 4..];
  }

  /** Without a usable value for any placeholder, filling spells the pieces out unchanged. */
  lemma {:induction false} FillWithoutValues(ps: seq<Piece>, params: map<string, string>)
    ensures (forall name :: name in params ==> params[name] == "") ==> Fill(ps, params) == Render(ps)
  {
    if ps != [] {
      FillWithoutValues(ps[1..], params);
    }
  }

  lemma {:induction false} WordRunOfName(w: string, rest: string)
    requires IsName(w) && (rest == [] || !IsWordChar(rest[0]))
    ensures WordRun(w + rest) == |w|
  {
    if |w| > 1 {
      WordRunOfName(w[1..], rest);
      assert (w + rest)[1..] == w[1..] + rest;
    } else {
      assert (w + rest)[1..] == rest;
    }
  }

  /** A placeholder at the start of the string is replaced by its parameter, and the scan continues after it. */
  lemma SubstitutePlaceholder(name: string, rest: string, params: map<string, string>)
    requires IsName(name)
    ensures Substitute(Spelled(name) + rest, params) == Replacement(name, params) + Substitute(rest, params)
  {
    var s := Spelled(name) + rest;
    WordRunOfName(name, "}}" + rest);
    assert s[2..] == name + ("}}" + rest);
    assert PlaceholderNameLength(s) == |name|;
    assert s[2..|name| + 2] == name;
    assert s[|name| + 4..] == rest;
  }

  /** A character that does not open a placeholder is copied, and the scan continues after it. */
  lemma SubstituteText(s: string, params: map<string, string>)
    requires s != [] && PlaceholderNameLength(s) == 0
    ensures Substitute(s, params) == [s[0]] + Substitute(s[1..], params)
  {
  }
}
