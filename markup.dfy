/** What a text input shows when the page writes `value="${s}"` into
    `innerHTML` without escaping `s`: the HTML tokenizer ends a
    double-quoted attribute value at the first `"` and decodes character
    references, and a text input strips line breaks from its value. Only
    the references `&amp;` and `&quot;` are decoded here. */
module Markup {

  /** Text a text input holds as given: no line break (stripped by the
      input) and no NUL (replaced by the tokenizer). */
  predicate FitsTextInput(s: string) {
    forall i :: 0 <= i < |s| ==> s[i] != '\n' && s[i] != '\r' && s[i] != '\0'
  }

  /** Text that `value="${s}"` shows unchanged: it fits a text input and
      holds neither a quote nor an ampersand. */
  predicate AttrSafe(s: string) {
    FitsTextInput(s) && '"' !in s && '&' !in s
  }

  /** The part of `s` before its first `"`, where a double-quoted
      attribute value ends. */
  function BeforeQuote(s: string): (v: string)
    ensures '"' !in v && v <= s
    ensures '"' in s ==> |v| < |s| && s[|v|] == '"'
    ensures '"' !in s ==> v == s
  {
    if s == [] then []
    else if s[0] == '"' then []
    else [s[0]] + BeforeQuote(s[1..])
  }

  /** The references `&amp;` and `&quot;` replaced by the characters they
      stand for; every other character is kept. */
  function DecodeRefs(s: string): (d: string)
    ensures '&' !in s ==> d == s
    decreases |s|
  {
    if "&amp;" <= s then "&" + DecodeRefs(s[5..])
    else if "&quot;" <= s then "\"" + DecodeRefs(s[6..])
    else if s == [] then []
    else [s[0]] + DecodeRefs(s[1..])
  }

  /** The value sanitization of a text input: line breaks removed. */
  function StripLineBreaks(s: string): (v: string)
    ensures |v| <= |s|
    ensures forall i :: 0 <= i < |v| ==> v[i] != '\n' && v[i] != '\r'
    ensures (forall i :: 0 <= i < |s| ==> s[i] != '\n' && s[i] != '\r') ==> v == s
  {
    if s == [] then []
    else (if s[0] == '\n' || s[0] == '\r' then [] else [s[0]]) + StripLineBreaks(s[1..])
  }

  /** The value an input shows for the markup `value="${s}"`. */
  function AttrValue(s: string): (v: string)
    ensures AttrSafe(s) ==> v == s
  {
    StripLineBreaks(DecodeRefs(BeforeQuote(s)))
  }

  /** How a page writes a stored text into `value="…"`: as is (`Raw`, as
      app.js does) or escaped first (`Escaped`). */
  datatype Writing = Raw | Escaped

  /** The texts each way of writing shows unchanged: any text that fits a
      text input once escaped, only quote- and ampersand-free text raw. */
  predicate ShowsAsStored(w: Writing, s: string) {
    match w
    case Raw => AttrSafe(s)
    case Escaped => FitsTextInput(s)
  }

  /** The value an input shows for a stored text written one way or the
      other. */
  function Shown(w: Writing, s: string): (v: string)
    ensures ShowsAsStored(w, s) ==> v == s
  {
    match w
    case Raw => AttrValue(s)
    case Escaped =>
      var v := AttrValue(EscapeAttr(s));
      assert FitsTextInput(s) ==> v == s by {
        if FitsTextInput(s) {
          EscapedValueReadsBack(s);
        }
      }
      v
  }

  /** A value holding a quote is cut at the first one: the input shows
      only the text before it. */
  lemma {:induction false} AttrValueCut(a: string, b: string)
    requires AttrSafe(a)
    ensures AttrValue(a + "\"" + b) == a
  {
    BeforeQuoteCut(a, b);
  }

  lemma {:induction false} BeforeQuoteCut(a: string, b: string)
    requires '"' !in a
    ensures BeforeQuote(a + "\"" + b) == a
  {
    if a != [] {
      assert (a + "\"" + b)[1..] == a[1..] + "\"" + b;
      BeforeQuoteCut(a[1..], b);
    }
  }

  /** The escaping that makes any text safe inside `value="…"`: `&`
      becomes `&amp;` and `"` becomes `&quot;`. */
  function EscapeAttr(s: string): (e: string)
    ensures '"' !in e
  {
    if s == [] then []
    else
      (if s[0] == '&' then "&amp;" else if s[0] == '"' then "&quot;" else [s[0]]) + EscapeAttr(s[1..])
  }

  /** Escaped text reads back as the text itself, whatever quotes and
      ampersands it holds. */
  lemma {:induction false} EscapedValueReadsBack(s: string)
    requires FitsTextInput(s)
    ensures AttrValue(EscapeAttr(s)) == s
  {
    DecodeEscaped(s);
  }

  /** Decoding undoes escaping. */
  lemma {:induction false} DecodeEscaped(s: string)
    ensures DecodeRefs(EscapeAttr(s)) == s
  {
    if s != [] {
      var rest := EscapeAttr(s[1..]);
      DecodeEscaped(s[1..]);
      if s[0] == '&' {
        var e := "&amp;" + rest;
        assert EscapeAttr(s) == e;
        assert "&amp;" <= e && e[5..] == rest;
        assert DecodeRefs(e) == "&" + DecodeRefs(rest);
      } else if s[0] == '"' {
        var e := "&quot;" + rest;
        assert EscapeAttr(s) == e;
        assert e[1] == 'q';
        assert !("&amp;" <= e);
        assert "&quot;" <= e && e[6..] == rest;
        assert DecodeRefs(e) == "\"" + DecodeRefs(rest);
      } else {
        var e := [s[0]] + rest;
        assert EscapeAttr(s) == e;
        assert e[0] != '&';
        assert !("&amp;" <= e) && !("&quot;" <= e);
        assert e[1..] == rest;
        assert DecodeRefs(e) == [s[0]] + DecodeRefs(rest);
      }
      assert s == [s[0]] + s[1..];
    }
  }
}
