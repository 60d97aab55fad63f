/** `html_escape`: the five-step `replace` chain that makes a value safe to
    place between HTML tags, with `&` rewritten first. */
module Escape {
  import opened Text

  /** The characters `html_escape` rewrites. */
  predicate IsSpecial(c: char) {
    c == '&' || c == '<' || c == '>' || c == '"' || c == '\''
  }

  /** The server's `html_escape(s)`, as the chain of replacements it is. */
  function HtmlEscape(s: string): string {
    ReplaceAll(
      ReplaceAll(
        ReplaceAll(
          ReplaceAll(
            ReplaceAll(s, "&", "&amp;"),
            "<", "&lt;"),
          ">", "&gt;"),
        "\"", "&quot;"),
      "'", "&#39;")
  }

  /** Reference definition, character by character: the entity of a
      special character, the character itself otherwise. */
  function EscapeChar(c: char): string {
    match c
    case '&' => "&amp;"
    case '<' => "&lt;"
    case '>' => "&gt;"
    case '"' => "&quot;"
    case '\'' => "&#39;"
    case _ => [c]
  }

  function EscapeEach(s: string): string {
    if s == [] then [] else EscapeChar(s[0]) + EscapeEach(s[1..])
  }

  /** One `replace` of a single character, as a per-character map. */
  function MapChar(s: string, c: char, rep: string): string {
    if s == [] then []
    else (if s[0] == c then rep else [s[0]]) + MapChar(s[1..], c, rep)
  }

  /** The inverse of escaping: decode the five entities, keep the rest. */
  function Unescape(r: string): string
    decreases |r|
  {
    if r == [] then []
    else if StartsWith(r, "&amp;") then "&" + Unescape(r[5..])
    else if StartsWith(r, "&lt;") then "<" + Unescape(r[4..])
    else if StartsWith(r, "&gt;") then ">" + Unescape(r[4..])
    else if StartsWith(r, "&quot;") then "\"" + Unescape(r[6..])
    else if StartsWith(r, "&#39;") then "'" + Unescape(r[5..])
    else [r[0]] + Unescape(r[1..])
  }

  /** Index `i` of `r` begins one of the five entities. */
  predicate EntityAt(r: string, i: nat)
    requires i <= |r|
  {
    var t := r[i..];
    StartsWith(t, "&amp;") || StartsWith(t, "&lt;") || StartsWith(t, "&gt;")
    || StartsWith(t, "&quot;") || StartsWith(t, "&#39;")
  }

  /** Every `&` of `r` begins an entity that lies wholly inside `r`. */
  predicate AmpersandsAreEntities(r: string) {
    forall i :: 0 <= i < |r| && r[i] == '&' ==> EntityAt(r, i)
  }

  predicate NoRawSpecials(r: string) {
    forall i :: 0 <= i < |r| ==> r[i] != '<' && r[i] != '>' && r[i] != '"' && r[i] != '\''
  }

  lemma {:induction false} ReplaceSingleChar(s: string, c: char, rep: string)
    ensures ReplaceAll(s, [c], rep) == MapChar(s, c, rep)
    decreases |s|
  {
    if s != [] {
      ReplaceSingleChar(s[1..], c, rep);
      assert (s[..1] == [c]) == (s[0] == c);
    }
  }

  lemma {:induction false} MapCharAppend(a: string, b: string, c: char, rep: string)
    ensures MapChar(a + b, c, rep) == MapChar(a, c, rep) + MapChar(b, c, rep)
    decreases |a|
  {
    if a == [] {
      assert a + b == b;
    } else {
      MapCharAppend(a[1..], b, c, rep);
      assert (a + b)[1..] == a[1..] + b;
    }
  }

  lemma {:induction false} MapCharAbsent(s: string, c: char, rep: string)
    requires forall k :: 0 <= k < |s| ==> s[k] != c
    ensures MapChar(s, c, rep) == s
    decreases |s|
  {
    if s != [] {
      MapCharAbsent(s[1..], c, rep);
    }
  }

  /** The chain with every `replace` read as a per-character map. */
  function Steps(s: string): string {
    MapChar(MapChar(MapChar(MapChar(MapChar(s, '&', "&amp;"), '<', "&lt;"), '>', "&gt;"), '"', "&quot;"), '\'', "&#39;")
  }

  lemma StepsAppend(a: string, b: string)
    ensures Steps(a + b) == Steps(a) + Steps(b)
  {
    var a1, b1 := MapChar(a, '&', "&amp;"), MapChar(b, '&', "&amp;");
    MapCharAppend(a, b, '&', "&amp;");
    var a2, b2 := MapChar(a1, '<', "&lt;"), MapChar(b1, '<', "&lt;");
    MapCharAppend(a1, b1, '<', "&lt;");
    var a3, b3 := MapChar(a2, '>', "&gt;"), MapChar(b2, '>', "&gt;");
    MapCharAppend(a2, b2, '>', "&gt;");
    var a4, b4 := MapChar(a3, '"', "&quot;"), MapChar(b3, '"', "&quot;");
    MapCharAppend(a3, b3, '"', "&quot;");
    MapCharAppend(a4, b4, '\'', "&#39;");
  }

  lemma MapCharSingle(x: char, c: char, rep: string)
    ensures MapChar([x], c, rep) == if x == c then rep else [x]
  {
  }

  lemma StepsPlain(c: char)
    requires !IsSpecial(c)
    ensures Steps([c]) == [c]
  {
    MapCharSingle(c, '&', "&amp;");
    MapCharSingle(c, '<', "&lt;");
    MapCharSingle(c, '>', "&gt;");
    MapCharSingle(c, '"', "&quot;");
    MapCharSingle(c, '\'', "&#39;");
  }

  // A later step leaves an earlier step's entity alone: the entities
  // contain no `<`, `>`, `"` or `'`.

  lemma StepsAmp()
    ensures Steps("&") == "&amp;"
  {
    var s1 := MapChar("&", '&', "&amp;");
    assert s1 == "&amp;" by { MapCharSingle('&', '&', "&amp;"); }
    var s2 := MapChar(s1, '<', "&lt;");
    assert s2 == "&amp;" by { MapCharAbsent("&amp;", '<', "&lt;"); }
    var s3 := MapChar(s2, '>', "&gt;");
    assert s3 == "&amp;" by { MapCharAbsent("&amp;", '>', "&gt;"); }
    var s4 := MapChar(s3, '"', "&quot;");
    assert s4 == "&amp;" by { MapCharAbsent("&amp;", '"', "&quot;"); }
    var s5 := MapChar(s4, '\'', "&#39;");
    assert s5 == "&amp;" by { MapCharAbsent("&amp;", '\'', "&#39;"); }
  }

  lemma StepsLt()
    ensures Steps("<") == "&lt;"
  {
    var s1 := MapChar("<", '&', "&amp;");
    assert s1 == "<" by { MapCharSingle('<', '&', "&amp;"); }
    var s2 := MapChar(s1, '<', "&lt;");
    assert s2 == "&lt;" by { MapCharSingle('<', '<', "&lt;"); }
    var s3 := MapChar(s2, '>', "&gt;");
    assert s3 == "&lt;" by { MapCharAbsent("&lt;", '>', "&gt;"); }
    var s4 := MapChar(s3, '"', "&quot;");
    assert s4 == "&lt;" by { MapCharAbsent("&lt;", '"', "&quot;"); }
    var s5 := MapChar(s4, '\'', "&#39;");
    assert s5 == "&lt;" by { MapCharAbsent("&lt;", '\'', "&#39;"); }
  }

  lemma StepsGt()
    ensures Steps(">") == "&gt;"
  {
    var s1 := MapChar(">", '&', "&amp;");
    assert s1 == ">" by { MapCharSingle('>', '&', "&amp;"); }
    var s2 := MapChar(s1, '<', "&lt;");
    assert s2 == ">" by { MapCharSingle('>', '<', "&lt;"); }
    var s3 := MapChar(s2, '>', "&gt;");
    assert s3 == "&gt;" by { MapCharSingle('>', '>', "&gt;"); }
    var s4 := MapChar(s3, '"', "&quot;");
    assert s4 == "&gt;" by { MapCharAbsent("&gt;", '"', "&quot;"); }
    var s5 := MapChar(s4, '\'', "&#39;");
    assert s5 == "&gt;" by { MapCharAbsent("&gt;", '\'', "&#39;"); }
  }

  lemma StepsQuot()
    ensures Steps("\"") == "&quot;"
  {
    var s1 := MapChar("\"", '&', "&amp;");
    assert s1 == "\"" by { MapCharSingle('"', '&', "&amp;"); }
    var s2 := MapChar(s1, '<', "&lt;");
    assert s2 == "\"" by { MapCharSingle('"', '<', "&lt;"); }
    var s3 := MapChar(s2, '>', "&gt;");
    assert s3 == "\"" by { MapCharSingle('"', '>', "&gt;"); }
    var s4 := MapChar(s3, '"', "&quot;");
    assert s4 == "&quot;" by { MapCharSingle('"', '"', "&quot;"); }
    var s5 := MapChar(s4, '\'', "&#39;");
    assert s5 == "&quot;" by { MapCharAbsent("&quot;", '\'', "&#39;"); }
  }

  lemma StepsApos()
    ensures Steps("'") == "&#39;"
  {
    var s1 := MapChar("'", '&', "&amp;");
    assert s1 == "'" by { MapCharSingle('\'', '&', "&amp;"); }
    var s2 := MapChar(s1, '<', "&lt;");
    assert s2 == "'" by { MapCharSingle('\'', '<', "&lt;"); }
    var s3 := MapChar(s2, '>', "&gt;");
    assert s3 == "'" by { MapCharSingle('\'', '>', "&gt;"); }
    var s4 := MapChar(s3, '"', "&quot;");
    assert s4 == "'" by { MapCharSingle('\'', '"', "&quot;"); }
    var s5 := MapChar(s4, '\'', "&#39;");
    assert s5 == "&#39;" by { MapCharSingle('\'', '\'', "&#39;"); }
  }

  lemma StepsOne(c: char)
    ensures Steps([c]) == EscapeChar(c)
  {
    match c
    case '&' => StepsAmp();
    case '<' => StepsLt();
    case '>' => StepsGt();
    case '"' => StepsQuot();
    case '\'' => StepsApos();
    case _ => StepsPlain(c);
  }

  /** `html_escape` replaces each special character by its entity and keeps
      every other character, in order. */
  lemma {:induction false} HtmlEscapeIsCharwise(s: string)
    ensures HtmlEscape(s) == EscapeEach(s)
  {
    var s1 := MapChar(s, '&', "&amp;");
    var s2 := MapChar(s1, '<', "&lt;");
    var s3 := MapChar(s2, '>', "&gt;");
    var s4 := MapChar(s3, '"', "&quot;");
    ReplaceSingleChar(s, '&', "&amp;");
    ReplaceSingleChar(s1, '<', "&lt;");
    ReplaceSingleChar(s2, '>', "&gt;");
    ReplaceSingleChar(s3, '"', "&quot;");
    ReplaceSingleChar(s4, '\'', "&#39;");
    StepsIsEscapeEach(s);
  }

  lemma {:induction false} StepsIsEscapeEach(s: string)
    ensures Steps(s) == EscapeEach(s)
    decreases |s|
  {
    if s != [] {
      assert s == [s[0]] + s[1..];
      StepsAppend([s[0]], s[1..]);
      StepsOne(s[0]);
      StepsIsEscapeEach(s[1..]);
    }
  }

  lemma StartsWithAppend(x: string, y: string, p: string)
    ensures StartsWith(x, p) ==> StartsWith(x + y, p)
  {
  }

  /** A string that differs from `p` at index `k` does not start with `p`. */
  lemma DiffersAt(r: string, p: string, k: nat)
    requires k < |p| && k < |r| && r[k] != p[k]
    ensures !StartsWith(r, p)
  {
  }

  lemma EscapeCharSafe(c: char)
    ensures NoRawSpecials(EscapeChar(c))
    ensures AmpersandsAreEntities(EscapeChar(c))
  {
    var e := EscapeChar(c);
    if IsSpecial(c) {
      assert e[0..] == e;
      assert EntityAt(e, 0);
    }
  }

  lemma AmpersandsAppend(a: string, b: string)
    requires AmpersandsAreEntities(a) && AmpersandsAreEntities(b)
    ensures AmpersandsAreEntities(a + b)
  {
    var r := a + b;
    forall i | 0 <= i < |r| && r[i] == '&' ensures EntityAt(r, i) {
      if i < |a| {
        assert r[i..] == a[i..] + b;
        assert EntityAt(a, i);
        var t := a[i..];
        StartsWithAppend(t, b, "&amp;");
        StartsWithAppend(t, b, "&lt;");
        StartsWithAppend(t, b, "&gt;");
        StartsWithAppend(t, b, "&quot;");
        StartsWithAppend(t, b, "&#39;");
      } else {
        assert r[i..] == b[i - |a|..];
        assert EntityAt(b, i - |a|);
      }
    }
  }

  lemma {:induction false} EscapeEachSafe(s: string)
    ensures NoRawSpecials(EscapeEach(s))
    ensures AmpersandsAreEntities(EscapeEach(s))
    decreases |s|
  {
    if s != [] {
      EscapeEachSafe(s[1..]);
      EscapeCharSafe(s[0]);
      AmpersandsAppend(EscapeChar(s[0]), EscapeEach(s[1..]));
    }
  }

  /** The output of `html_escape` holds no raw `<`, `>`, `"` or `'`, and
      every `&` in it begins `&amp;`, `&lt;`, `&gt;`, `&quot;` or `&#39;`. */
  lemma HtmlEscapeSafe(s: string)
    ensures NoRawSpecials(HtmlEscape(s))
    ensures AmpersandsAreEntities(HtmlEscape(s))
  {
    HtmlEscapeIsCharwise(s);
    EscapeEachSafe(s);
  }

  lemma {:induction false} EscapeEachPlain(s: string)
    requires forall k :: 0 <= k < |s| ==> !IsSpecial(s[k])
    ensures EscapeEach(s) == s
    decreases |s|
  {
    if s != [] {
      EscapeEachPlain(s[1..]);
    }
  }

  /** A value with none of the five special characters comes back as is. */
  lemma HtmlEscapePlain(s: string)
    requires forall k :: 0 <= k < |s| ==> !IsSpecial(s[k])
    ensures HtmlEscape(s) == s
  {
    HtmlEscapeIsCharwise(s);
    EscapeEachPlain(s);
  }

  /** Decoding an escaped character in front of any text. */
  lemma UnescapeCons(c: char, t: string)
    ensures Unescape(EscapeChar(c) + t) == [c] + Unescape(t)
  {
    var e := EscapeChar(c);
    var r := e + t;
    assert r[..|e|] == e && r[|e|..] == t;
    if !IsSpecial(c) {
      assert r[0] == c;
      DiffersAt(r, "&amp;", 0);
      DiffersAt(r, "&lt;", 0);
      DiffersAt(r, "&gt;", 0);
      DiffersAt(r, "&quot;", 0);
      DiffersAt(r, "&#39;", 0);
    } else if c == '&' {
    } else if c == '<' {
      DiffersAt(r, "&amp;", 1);
    } else if c == '>' {
      DiffersAt(r, "&amp;", 1);
      DiffersAt(r, "&lt;", 1);
    } else if c == '"' {
      DiffersAt(r, "&amp;", 1);
      DiffersAt(r, "&lt;", 1);
      DiffersAt(r, "&gt;", 1);
    } else {
      DiffersAt(r, "&amp;", 1);
      DiffersAt(r, "&lt;", 1);
      DiffersAt(r, "&gt;", 1);
      DiffersAt(r, "&quot;", 1);
    }
  }

  lemma {:induction false} UnescapeEscapeEach(s: string)
    ensures Unescape(EscapeEach(s)) == s
    decreases |s|
  {
    if s != [] {
      UnescapeEscapeEach(s[1..]);
      UnescapeCons(s[0], EscapeEach(s[1..]));
    }
  }

  /** Escaping loses nothing: decoding the five entities gives the value
      back, so distinct values escape to distinct markup. */
  lemma HtmlEscapeRoundTrip(s: string)
    ensures Unescape(HtmlEscape(s)) == s
  {
    HtmlEscapeIsCharwise(s);
    UnescapeEscapeEach(s);
  }
}
