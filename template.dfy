/** The substitution loop of `render_template` and the `str()` of the
    integers it is given. */
module Template {
  import opened Text

  /** The literal placeholder `{{key}}`. */
  function Token(key: string): (t: string)
    ensures |t| == |key| + 4 && t[2..|t| - 2] == key
  {
    "{{" + key + "}}"
  }

  /** The context entries applied one after the other, in dict order: each
      replaces every `{{key}}` of the text produced so far by its value. */
  function Substitute(html: string, context: seq<(string, string)>): string
    decreases |context|
  {
    if context == [] then html
    else Substitute(ReplaceAll(html, Token(context[0].0), context[0].1), context[1..])
  }

  /** The loop of `render_template` over an already loaded template. */
  method RenderTemplate(template: string, context: seq<(string, string)>) returns (html: string)
    ensures html == Substitute(template, context)
  {
    html := template;
    for i := 0 to |context|
      invariant Substitute(html, context[i..]) == Substitute(template, context)
    {
      var (key, value) := context[i];
      assert context[i..][1..] == context[i + 1..];
      html := ReplaceAll(html, Token(key), value);
    }
  }

  /** A template in which no key's placeholder occurs is returned as is. */
  lemma {:induction false} SubstituteNoPlaceholders(template: string, context: seq<(string, string)>)
    requires forall i :: 0 <= i < |context| ==> !Contains(template, Token(context[i].0))
    ensures Substitute(template, context) == template
    decreases |context|
  {
    if context != [] {
      SubstituteNoPlaceholders(template, context[1..]);
    }
  }

  /** Applying the entries in turn: the context can be cut anywhere and the
      second part applied to the result of the first. */
  lemma {:induction false} SubstituteAppend(html: string, first: seq<(string, string)>, second: seq<(string, string)>)
    ensures Substitute(html, first + second) == Substitute(Substitute(html, first), second)
    decreases |first|
  {
    if first == [] {
      assert first + second == second;
    } else {
      assert (first + second)[1..] == first[1..] + second;
      SubstituteAppend(ReplaceAll(html, Token(first[0].0), first[0].1), first[1..], second);
    }
  }

  /** A text that is exactly the pattern is replaced by `rep` as a whole. */
  lemma ReplaceWhole(p: string, rep: string)
    requires p != []
    ensures ReplaceAll(p, p, rep) == rep
  {
    assert p[..|p|] == p;
    assert p[|p|..] == [];
  }

  /** The entries apply in turn, not at once: a value put in by an earlier
      entry is itself rewritten by a later one. For any keys `a` and `b`,
      `{{a}}` becomes `{{b}}` under the first entry and then `v` under the
      second. */
  lemma SubstituteIsSequential(a: string, b: string, v: string)
    ensures Substitute(Token(a), [(a, Token(b)), (b, v)]) == v
  {
    var context := [(a, Token(b)), (b, v)];
    var last := [(b, v)];
    assert context[1..] == last;
    assert last[1..] == [];
    calc {
      Substitute(Token(a), context);
      Substitute(ReplaceAll(Token(a), Token(a), Token(b)), last);
      { ReplaceWhole(Token(a), Token(b)); }
      Substitute(Token(b), last);
      Substitute(ReplaceAll(Token(b), Token(b), v), []);
      { ReplaceWhole(Token(b), v); }
      v;
    }
  }

  /** One entry cuts the text at each placeholder and puts the value in
      every cut. */
  lemma SubstituteOne(html: string, key: string, value: string)
    ensures Substitute(html, [(key, value)]) == Join(Split(html, Token(key)), value)
    ensures Join(Split(html, Token(key)), Token(key)) == html
  {
    assert [(key, value)][1..] == [];
    ReplaceIsSplitJoin(html, Token(key), value);
    SplitJoin(html, Token(key));
  }

  predicate IsDigit(c: char) {
    '0' as int <= c as int <= '9' as int
  }

  function Digit(d: nat): (c: char)
    requires d < 10
    ensures IsDigit(c) && (c as int) - ('0' as int) == d
  {
    (d + '0' as int) as char
  }

  /** Python's `str(n)` for a natural number: its decimal digits, most
      significant first, without leading zeros. */
  function Decimal(n: nat): (r: string)
    ensures r != []
    ensures forall i :: 0 <= i < |r| ==> IsDigit(r[i])
    ensures r[0] == '0' ==> r == "0"
    decreases n
  {
    if n < 10 then [Digit(n)] else Decimal(n / 10) + [Digit(n % 10)]
  }

  /** The number a string of decimal digits denotes. */
  function DecimalValue(s: string): nat
    requires forall i :: 0 <= i < |s| ==> IsDigit(s[i])
  {
    if s == [] then 0
    else
      var last := s[|s| - 1];
      assert IsDigit(last);
      10 * DecimalValue(s[..|s| - 1]) + ((last as int) - ('0' as int))
  }

  /** Reading the digits back gives the number. */
  lemma {:induction false} DecimalRoundTrip(n: nat)
    ensures DecimalValue(Decimal(n)) == n
    decreases n
  {
    if n >= 10 {
      DecimalRoundTrip(n / 10);
      var r := Decimal(n);
      assert r[..|r| - 1] == Decimal(n / 10);
    }
  }
}
