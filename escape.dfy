/**
 * The `escape-html` package that the sanitizer calls: each of the five
 * characters `& < > " '` is replaced by its HTML entity, every other
 * character is kept. `UnescapeHtml` decodes exactly those five entities and
 * is the inverse that pins the mapping down.
 */
module Escape {

  /** The characters that could open a tag or end an attribute value. */
  predicate IsMarkup(c: char) {
    c == '<' || c == '>' || c == '"' || c == '\''
  }

  /** `s` holds none of the characters that could open a tag or end an attribute. */
  predicate NoMarkup(s: string) {
    forall i :: 0 <= i < |s| ==> !IsMarkup(s[i])
  }

  function EscapeChar(c: char): (r: string)
    ensures NoMarkup(r)
    ensures 0 < |r| && (r[0] == '&' <==> c == '&' || IsMarkup(c))
  {
    if c == '&' then "&amp;"
    else if c == '<' then "&lt;"
    else if c == '>' then "&gt;"
    else if c == '"' then "&quot;"
    else if c == '\'' then "&#39;"
    else [c]
  }

  function EscapeHtml(s: string): (r: string)
    ensures NoMarkup(r)
    ensures |s| <= |r|
  {
    if s == [] then [] else EscapeChar(s[0]) + EscapeHtml(s[1..])
  }

  function UnescapeHtml(s: string): string
    decreases |s|
  {
    if s == [] then []
    else if |s| >= 5 && s[..5] == "&amp;" then "&" + UnescapeHtml(s[5..])
    else if |s| >= 4 && s[..4] == "&lt;" then "<" + UnescapeHtml(s[4..])
    else if |s| >= 4 && s[..4] == "&gt;" then ">" + UnescapeHtml(s[4..])
    else if |s| >= 6 && s[..6] == "&quot;" then "\"" + UnescapeHtml(s[6..])
    else if |s| >= 5 && s[..5] == "&#39;" then "'" + UnescapeHtml(s[5..])
    else [s[0]] + UnescapeHtml(s[1..])
  }

  /** `u` does not start with `p` when they differ at a position both have. */
  lemma {:induction false} Mismatch(u: string, p: string, k: nat)
    requires k < |p| && k < |u| && u[k] != p[k]
    ensures !(|u| >= |p| && u[..|p|] == p)
  {
  }

  lemma {:induction false} UnescapeEscapedChar(c: char, t: string)
    ensures UnescapeHtml(EscapeChar(c) + t) == [c] + UnescapeHtml(t)
  {
    var u := EscapeChar(c) + t;
    if c == '&' {
      assert u[..5] == "&amp;" && u[5..] == t;
    } else if c == '<' {
      Mismatch(u, "&amp;", 1);
      assert u[..4] == "&lt;" && u[4..] == t;
    } else if c == '>' {
      Mismatch(u, "&amp;", 1);
      Mismatch(u, "&lt;", 1);
      assert u[..4] == "&gt;" && u[4..] == t;
    } else if c == '"' {
      Mismatch(u, "&amp;", 1);
      Mismatch(u, "&lt;", 1);
      Mismatch(u, "&gt;", 1);
      assert u[..6] == "&quot;" && u[6..] == t;
    } else if c == '\'' {
      Mismatch(u, "&amp;", 1);
      Mismatch(u, "&lt;", 1);
      Mismatch(u, "&gt;", 1);
      Mismatch(u, "&quot;", 1);
      assert u[..5] == "&#39;" && u[5..] == t;
    } else {
      Mismatch(u, "&amp;", 0);
      Mismatch(u, "&lt;", 0);
      Mismatch(u, "&gt;", 0);
      Mismatch(u, "&quot;", 0);
      Mismatch(u, "&#39;", 0);
      assert u[0] == c && u[1..] == t;
    }
  }

  /** Escaping loses nothing: decoding the five entities gives the input back. */
  lemma {:induction false} UnescapeEscape(s: string)
    ensures UnescapeHtml(EscapeHtml(s)) == s
  {
    if s != [] {
      UnescapeEscapedChar(s[0], EscapeHtml(s[1..]));
      UnescapeEscape(s[1..]);
    }
  }

  /** A string without `&` or markup characters is left as it is. */
  lemma {:induction false} EscapePlain(s: string)
    requires forall i :: 0 <= i < |s| ==> s[i] != '&' && !IsMarkup(s[i])
    ensures EscapeHtml(s) == s
  {
    if s != [] {
      EscapePlain(s[1..]);
    }
  }

  /** Escaping works character by character: it distributes over concatenation. */
  lemma {:induction false} EscapeConcat(a: string, b: string)
    ensures EscapeHtml(a + b) == EscapeHtml(a) + EscapeHtml(b)
  {
    if a == [] {
      assert a + b == b;
    } else {
      assert (a + b)[1..] == a[1..] + b;
      EscapeConcat(a[1..], b);
    }
  }

  /** A tag such as `<script>` reaches the page as the inert text `&lt;script&gt;`. */
  lemma {:induction false} EscapeTag(name: string)
    requires forall i :: 0 <= i < |name| ==> 'a' <= name[i] <= 'z'
    ensures EscapeHtml("<" + name + ">") == "&lt;" + name + "&gt;"
  {
    var lt, gt := "<", ">";
    assert EscapeHtml(lt) == "&lt;";
    assert EscapeHtml(gt) == "&gt;";
    EscapePlain(name);
    EscapeConcat(lt, name);
    EscapeConcat(lt + name, gt);
  }



}
