/**
 * `escapeHtml` and the attribute quoting of the search form (src/index.ts).
 *
 * `escapeHtml` is a chain of five global `.replace` calls, `&` first, each
 * turning one character into its HTML character reference. The model keeps
 * that chain as it is written (EscapeHtml) and relates it to a per-character
 * reference definition (PartialEscape): after the first `j` replacements,
 * every character of the first `j` kinds has become its reference and every
 * other character is untouched. From that follow the round trip through the
 * reverse chain (UnescapeHtml, `&amp;` decoded last), the absence of markup
 * characters, the shape of every `&` in the output, and the identity on
 * plain text.
 */
module HtmlEscape {

  /** The characters `escapeHtml` rewrites, in the order of its `.replace` calls. */
  const Specials: string := "&<>\"'"

  /** The character reference each character of `Specials` becomes, index for index. */
  const References: seq<string> := ["&amp;", "&lt;", "&gt;", "&quot;", "&#039;"]

  /** Replaces every occurrence of `pat` in `s`, left to right and without overlaps:
      what `s.replace(re, repl)` does when `re` is a global pattern matching the text `pat`. */
  function ReplaceText(s: string, pat: string, repl: string): string
    requires pat != []
    decreases |s|
  {
    if s == [] then []
    else if pat <= s then repl + ReplaceText(s[|pat|..], pat, repl)
    else [s[0]] + ReplaceText(s[1..], pat, repl)
  }

  /** `escapeHtml(str)`, replacement by replacement. */
  function EscapeHtml(str: string): string
  {
    ReplaceText(
      ReplaceText(
        ReplaceText(
          ReplaceText(
            ReplaceText(str, "&", "&amp;"),
            "<", "&lt;"),
          ">", "&gt;"),
        "\"", "&quot;"),
      "'", "&#039;")
  }

  /** Decodes the five references in the reverse order, `&#039;` first and `&amp;` last. */
  function UnescapeHtml(r: string): string
  {
    DecodeReferences(|References|, r)
  }

  /** Decodes references j-1, j-2, …, 0 of `References`, in that order. */
  function DecodeReferences(j: nat, r: string): string
    requires j <= |References|
  {
    if j == 0 then r
    else DecodeReferences(j - 1, ReplaceText(r, References[j - 1], [Specials[j - 1]]))
  }

  /** The value written into the form's `value='…'` attribute: only `'` is replaced. */
  function QuoteAttribute(name: string): string
  {
    ReplaceText(name, "'", "&#039;")
  }

  /** Text that `escapeHtml` has nothing to do on. */
  predicate Plain(s: string)
  {
    forall c :: c in s ==> c !in Specials
  }

  /** `t` begins with one of the five character references. */
  predicate StartsReference(t: string)
  {
    exists k :: 0 <= k < |References| && References[k] <= t
  }

  /** Every `&` in `r` starts one of the five character references. */
  predicate AmpersandsStartReferences(r: string)
  {
    forall i :: 0 <= i < |r| && r[i] == '&' ==> StartsReference(r[i..])
  }

  /** The index of `c` in `Specials`, or |Specials| when `c` is not special. */
  function KindOf(c: char): (k: nat)
    ensures k <= |Specials|
    ensures k < |Specials| ==> Specials[k] == c
    ensures k == |Specials| <==> c !in Specials
  {
    if c == '&' then 0
    else if c == '<' then 1
    else if c == '>' then 2
    else if c == '"' then 3
    else if c == '\'' then 4
    else 5
  }

  /** `c` once the first `j` replacements of `escapeHtml` have run over it. */
  function EscapeFirst(j: nat, c: char): string
    requires j <= |Specials|
  {
    var k := KindOf(c);
    if k < j then References[k] else [c]
  }

  /** Reference definition: `s` with every character of the first `j` kinds escaped. */
  function PartialEscape(j: nat, s: string): string
    requires j <= |Specials|
  {
    if s == [] then [] else EscapeFirst(j, s[0]) + PartialEscape(j, s[1..])
  }

  /** Facts about the five references that the proofs below rely on. */
  lemma ReferenceFacts(k: nat)
    requires k < |References|
    ensures |References| == |Specials| == 5
    ensures |References[k]| >= 4 && References[k][0] == '&'
    ensures '&' !in References[k][1..]
    ensures forall c :: c in References[k] ==> c == '&' || c !in Specials
    ensures forall j :: 0 <= j < |References| && j != k ==> References[j][1] != References[k][1]
  {
    assert References[0] == "&amp;" && References[1] == "&lt;" && References[2] == "&gt;";
    assert References[3] == "&quot;" && References[4] == "&#039;";
    assert Specials == ['&', '<', '>', '"', '\''];
  }

  /** Characters that cannot start `pat` pass through ReplaceText unchanged. */
  lemma {:induction false} ReplaceTextSkip(x: string, y: string, pat: string, repl: string)
    requires pat != [] && pat[0] !in x
    ensures ReplaceText(x + y, pat, repl) == x + ReplaceText(y, pat, repl)
    decreases |x|
  {
    if x == [] {
      assert x + y == y;
    } else {
      assert x[0] in x;
      assert (x + y)[0] == x[0];
      assert !(pat <= x + y);
      assert (x + y)[1..] == x[1..] + y;
      ReplaceTextSkip(x[1..], y, pat, repl);
      assert [x[0]] + x[1..] == x;
    }
  }

  /** An occurrence of `pat` at the front is replaced and the scan resumes after it. */
  lemma ReplaceTextMatch(pat: string, y: string, repl: string)
    requires pat != []
    ensures ReplaceText(pat + y, pat, repl) == repl + ReplaceText(y, pat, repl)
  {
    assert pat <= pat + y;
    assert (pat + y)[|pat|..] == y;
  }

  /** Text that starts like `pat` but is not followed by the rest of it passes through,
      provided the first character of `pat` does not recur in it. */
  lemma ReplaceTextNearMiss(x: string, y: string, pat: string, repl: string)
    requires |x| >= 2 && |pat| >= 2 && x[1] != pat[1] && pat[0] !in x[1..]
    ensures ReplaceText(x + y, pat, repl) == x + ReplaceText(y, pat, repl)
  {
    assert (x + y)[1] == x[1];
    assert !(pat <= x + y);
    assert (x + y)[1..] == x[1..] + y;
    ReplaceTextSkip(x[1..], y, pat, repl);
    assert [x[0]] + x[1..] == x;
  }

  /** Replacing a character by text that lacks it removes every occurrence of it. */
  lemma {:induction false} ReplaceTextRemoves(s: string, d: char, repl: string)
    requires d !in repl
    ensures d !in ReplaceText(s, [d], repl)
    decreases |s|
  {
    if s != [] {
      ReplaceTextRemoves(s[1..], d, repl);
    }
  }

  lemma {:induction false} PartialEscapeNone(s: string)
    ensures PartialEscape(0, s) == s
  {
    if s != [] {
      PartialEscapeNone(s[1..]);
    }
  }

  /** Replacement j+1 of `escapeHtml` takes PartialEscape(j, s) to PartialEscape(j + 1, s). */
  lemma {:induction false} EscapeStep(j: nat, s: string)
    requires j < |Specials|
    ensures ReplaceText(PartialEscape(j, s), [Specials[j]], References[j]) == PartialEscape(j + 1, s)
  {
    if s != [] {
      var c := s[0];
      var k := KindOf(c);
      var head, tail := EscapeFirst(j, c), PartialEscape(j, s[1..]);
      assert PartialEscape(j, s) == head + tail;
      EscapeStep(j, s[1..]);
      if k < j {
        ReferenceFacts(k);
        assert Specials[j] != '&' by { assert Specials[0] == '&'; }
        ReplaceTextSkip(head, tail, [Specials[j]], References[j]);
      } else if k == j {
        ReplaceTextMatch([Specials[j]], tail, References[j]);
      } else {
        ReplaceTextSkip(head, tail, [Specials[j]], References[j]);
      }
    }
  }

  /** Decoding reference j takes PartialEscape(j + 1, s) back to PartialEscape(j, s). */
  lemma {:induction false} UnescapeStep(j: nat, s: string)
    requires j < |Specials|
    ensures ReplaceText(PartialEscape(j + 1, s), References[j], [Specials[j]]) == PartialEscape(j, s)
  {
    if s != [] {
      var c := s[0];
      var k := KindOf(c);
      var pat := References[j];
      var head, tail := EscapeFirst(j + 1, c), PartialEscape(j + 1, s[1..]);
      assert PartialEscape(j + 1, s) == head + tail;
      UnescapeStep(j, s[1..]);
      ReferenceFacts(j);
      if k < j {
        ReferenceFacts(k);
        ReplaceTextNearMiss(head, tail, pat, [Specials[j]]);
      } else if k == j {
        ReplaceTextMatch(pat, tail, [Specials[j]]);
      } else {
        assert c != '&' by { assert Specials[0] == '&'; }
        ReplaceTextSkip(head, tail, pat, [Specials[j]]);
      }
    }
  }

  /** The chain as written equals the per-character reference definition. */
  lemma EscapeHtmlPerCharacter(s: string)
    ensures EscapeHtml(s) == PartialEscape(|Specials|, s)
  {
    PartialEscapeNone(s);
    assert [Specials[0]] == "&" && [Specials[1]] == "<" && [Specials[2]] == ">";
    assert [Specials[3]] == "\"" && [Specials[4]] == "'";
    ReferenceFacts(0);
    var e1 := ReplaceText(s, "&", "&amp;");
    EscapeStep(0, s);
    assert e1 == PartialEscape(1, s);
    var e2 := ReplaceText(e1, "<", "&lt;");
    EscapeStep(1, s);
    assert e2 == PartialEscape(2, s);
    var e3 := ReplaceText(e2, ">", "&gt;");
    EscapeStep(2, s);
    assert e3 == PartialEscape(3, s);
    var e4 := ReplaceText(e3, "\"", "&quot;");
    EscapeStep(3, s);
    assert e4 == PartialEscape(4, s);
    EscapeStep(4, s);
  }

  /** Decoding references j-1 down to 0 undoes the first j replacements. */
  lemma {:induction false} DecodeUndoesEscape(j: nat, s: string)
    requires j <= |Specials|
    ensures DecodeReferences(j, PartialEscape(j, s)) == PartialEscape(0, s)
  {
    if j > 0 {
      UnescapeStep(j - 1, s);
      DecodeUndoesEscape(j - 1, s);
    }
  }

  /** Decoding the five references, `&amp;` last, gives back the original string. */
  lemma EscapeRoundTrip(s: string)
    ensures UnescapeHtml(EscapeHtml(s)) == s
  {
    EscapeHtmlPerCharacter(s);
    DecodeUndoesEscape(|Specials|, s);
    PartialEscapeNone(s);
  }

  /** Distinct titles stay distinct once escaped. */
  lemma EscapeInjective(a: string, b: string)
    requires EscapeHtml(a) == EscapeHtml(b)
    ensures a == b
  {
    EscapeRoundTrip(a);
    EscapeRoundTrip(b);
  }

  /** The only special character left by the full escape is `&`. */
  lemma {:induction false} FullEscapeOnlyAmpersand(s: string)
    ensures forall c :: c in PartialEscape(|Specials|, s) ==> c == '&' || c !in Specials
  {
    if s != [] {
      FullEscapeOnlyAmpersand(s[1..]);
      var k := KindOf(s[0]);
      if k < |Specials| {
        ReferenceFacts(k);
      }
    }
  }

  /** The output of `escapeHtml` contains no `<`, `>`, `"` or `'`. */
  lemma EscapeRemovesMarkup(s: string)
    ensures var r := EscapeHtml(s); '<' !in r && '>' !in r && '"' !in r && '\'' !in r
  {
    EscapeHtmlPerCharacter(s);
    FullEscapeOnlyAmpersand(s);
    assert Specials[1] == '<' && Specials[2] == '>' && Specials[3] == '"' && Specials[4] == '\'';
  }

  lemma {:induction false} FullEscapeAmpersands(s: string)
    ensures AmpersandsStartReferences(PartialEscape(|Specials|, s))
  {
    if s != [] {
      FullEscapeAmpersands(s[1..]);
      var head, tail := EscapeFirst(|Specials|, s[0]), PartialEscape(|Specials|, s[1..]);
      var r := head + tail;
      assert r == PartialEscape(|Specials|, s);
      var k := KindOf(s[0]);
      forall i | 0 <= i < |r| && r[i] == '&' ensures StartsReference(r[i..]) {
        if i < |head| {
          assert k < |Specials| by {
            assert Specials[0] == '&' && Specials[0] in Specials;
          }
          ReferenceFacts(k);
          assert i == 0;
          assert head == References[k] && r[i..] == head + tail;
          assert References[k] <= r[i..];
          assert StartsReference(r[i..]);
        } else {
          var i' := i - |head|;
          assert 0 <= i' < |tail| && tail[i'] == '&';
          assert r[i..] == tail[i'..];
        }
      }
    }
  }

  /** Every `&` in the output of `escapeHtml` starts one of the five references. */
  lemma EscapeAmpersandsStartReferences(s: string)
    ensures AmpersandsStartReferences(EscapeHtml(s))
  {
    EscapeHtmlPerCharacter(s);
    FullEscapeAmpersands(s);
  }

  lemma {:induction false} FullEscapeLength(s: string)
    ensures |PartialEscape(|Specials|, s)| >= |s|
    ensures |PartialEscape(|Specials|, s)| == |s| <==> Plain(s)
    ensures Plain(s) ==> PartialEscape(|Specials|, s) == s
  {
    if s != [] {
      FullEscapeLength(s[1..]);
      var k := KindOf(s[0]);
      if k < |Specials| {
        ReferenceFacts(k);
        assert !Plain(s) by { assert s[0] in s; }
      } else {
        assert Plain(s) <==> Plain(s[1..]) by {
          forall c | c in s ensures c == s[0] || c in s[1..] {
            var i :| 0 <= i < |s| && s[i] == c;
            if i != 0 { assert s[1..][i - 1] == c; }
          }
        }
        assert [s[0]] + s[1..] == s;
      }
    }
  }

  /** `escapeHtml` never shortens its input, and leaves it unchanged exactly when
      it contains none of `& < > " '`. */
  lemma EscapeIdentityOnPlainText(s: string)
    ensures |EscapeHtml(s)| >= |s|
    ensures EscapeHtml(s) == s <==> Plain(s)
  {
    EscapeHtmlPerCharacter(s);
    FullEscapeLength(s);
  }

  /** The form value cannot close its single-quoted attribute, and a name without
      `'` is written as it is. */
  /** Reference definition of the form quoting: each `'` becomes `&#039;`, every other
      character is kept. */
  function QuoteEach(s: string): string
  {
    if s == [] then [] else (if s[0] == '\'' then "&#039;" else [s[0]]) + QuoteEach(s[1..])
  }

  /** The `/'/g` replacement is the per-character quoting. */
  lemma {:induction false} QuoteAttributePerCharacter(name: string)
    ensures QuoteAttribute(name) == QuoteEach(name)
    decreases |name|
  {
    if name != [] {
      QuoteAttributePerCharacter(name[1..]);
      assert ("'" <= name) <==> name[0] == '\'';
      if name[0] == '\'' {
        assert name[|"'"|..] == name[1..];
      }
    }
  }

  lemma {:induction false} QuoteAttributeRemovesQuotes(name: string)
    ensures QuoteAttribute(name) == QuoteEach(name)
    ensures '\'' !in QuoteAttribute(name)
    ensures '\'' !in name ==> QuoteAttribute(name) == name
  {
    QuoteAttributePerCharacter(name);
    assert "'" == ['\''];
    assert '\'' !in "&#039;";
    ReplaceTextRemoves(name, '\'', "&#039;");
    if '\'' !in name {
      ReplaceTextSkip(name, [], "'", "&#039;");
      assert name + [] == name;
    }
  }
}
