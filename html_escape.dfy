/**
 * Python's `html.escape(s)` with its default `quote=True`, as used for the
 * `src` attribute of every ticker image. It is the chain of replacements
 * `&` -> `&amp;` (first), `<` -> `&lt;`, `>` -> `&gt;`, `"` -> `&quot;` and
 * `'` -> `&#x27;`.
 */
module HtmlEscape {

  /**
   * `s.replace(c, rep)` for a one-character pattern `c`: every occurrence
   * of `c` is replaced by `rep`, every other character is kept.
   */
  function Replace(s: string, c: char, rep: string): (r: string)
    ensures c !in rep ==> c !in r
    ensures forall x :: x in r ==> x in rep || (x in s && x != c)
  {
    if s == [] then []
    else (if s[0] == c then rep else [s[0]]) + Replace(s[1..], c, rep)
  }

  /** Replacing distributes over concatenation. */
  lemma {:induction false} ReplaceAppend(a: string, b: string, c: char, rep: string)
    ensures Replace(a + b, c, rep) == Replace(a, c, rep) + Replace(b, c, rep)
  {
    if a == [] {
      assert a + b == b;
    } else {
      assert (a + b)[1..] == a[1..] + b;
      ReplaceAppend(a[1..], b, c, rep);
    }
  }

  /** A string without the pattern is left as it is. */
  lemma {:induction false} ReplaceAbsent(s: string, c: char, rep: string)
    requires c !in s
    ensures Replace(s, c, rep) == s
  {
    if s != [] {
      ReplaceAbsent(s[1..], c, rep);
    }
  }

  /** A one-character string is replaced by its entity. */
  lemma ReplaceOne(c: char, rep: string)
    ensures Replace([c], c, rep) == rep
  {
    assert [c][1..] == [];
  }

  /**
   * `html.escape(s, quote=True)`, in the order the replacements are applied.
   * None of the four characters that could end an attribute or a tag early
   * survives it.
   */
  function Escape(s: string): (r: string)
    ensures '<' !in r && '>' !in r && '"' !in r && '\'' !in r
  {
    var s1 := Replace(s, '&', "&amp;");
    var s2 := Replace(s1, '<', "&lt;");
    var s3 := Replace(s2, '>', "&gt;");
    var s4 := Replace(s3, '"', "&quot;");
    Replace(s4, '\'', "&#x27;")
  }

  /** The entity that one character becomes. */
  function EscapeChar(c: char): string {
    match c
    case '&' => "&amp;"
    case '<' => "&lt;"
    case '>' => "&gt;"
    case '"' => "&quot;"
    case '\'' => "&#x27;"
    case _ => [c]
  }

  /** Reference definition: each character escaped on its own. */
  function EscapeEach(s: string): string {
    if s == [] then [] else EscapeChar(s[0]) + EscapeEach(s[1..])
  }

  /**
   * Because `&` is replaced first, and no later replacement introduces a
   * character that a still later one rewrites, the chain of replacements is
   * the same as escaping character by character.
   */
  lemma {:induction false} EscapeIsEscapeEach(s: string)
    ensures Escape(s) == EscapeEach(s)
  {
    if s != [] {
      var c, t := s[0], s[1..];
      assert s == [c] + t;
      EscapeAppend([c], t);
      EscapeOne(c);
      EscapeIsEscapeEach(t);
    }
  }

  /** On one character the chain yields that character's entity. */
  lemma EscapeOne(c: char)
    ensures Escape([c]) == EscapeChar(c)
  {
    var e := EscapeChar(c);
    if c == '&' {
      ReplaceOne(c, "&amp;");
      LaterStepsKeep(e, 1);
    } else {
      ReplaceAbsent([c], '&', "&amp;");
      if c == '<' {
        ReplaceOne(c, "&lt;");
        LaterStepsKeep(e, 2);
      } else {
        ReplaceAbsent([c], '<', "&lt;");
        if c == '>' {
          ReplaceOne(c, "&gt;");
          LaterStepsKeep(e, 3);
        } else {
          ReplaceAbsent([c], '>', "&gt;");
          if c == '"' {
            ReplaceOne(c, "&quot;");
            LaterStepsKeep(e, 4);
          } else {
            ReplaceAbsent([c], '"', "&quot;");
            if c == '\'' {
              ReplaceOne(c, "&#x27;");
            } else {
              ReplaceAbsent([c], '\'', "&#x27;");
            }
          }
        }
      }
    }
  }

  /**
   * An entity emitted by step `k` of the chain (1 for `&` ... 5 for `'`)
   * holds none of the characters that steps `k + 1` to 5 rewrite.
   */
  lemma LaterStepsKeep(e: string, k: nat)
    requires 1 <= k <= 4
    requires '<' !in e || k >= 2
    requires '>' !in e || k >= 3
    requires '"' !in e || k >= 4
    requires '\'' !in e
    ensures k <= 1 ==> Replace(e, '<', "&lt;") == e
    ensures k <= 2 ==> Replace(e, '>', "&gt;") == e
    ensures k <= 3 ==> Replace(e, '"', "&quot;") == e
    ensures Replace(e, '\'', "&#x27;") == e
  {
    if k <= 1 { ReplaceAbsent(e, '<', "&lt;"); }
    if k <= 2 { ReplaceAbsent(e, '>', "&gt;"); }
    if k <= 3 { ReplaceAbsent(e, '"', "&quot;"); }
    ReplaceAbsent(e, '\'', "&#x27;");
  }

  /** The chain distributes over concatenation. */
  lemma EscapeAppend(a: string, b: string)
    ensures Escape(a + b) == Escape(a) + Escape(b)
  {
    var a1, b1 := Replace(a, '&', "&amp;"), Replace(b, '&', "&amp;");
    ReplaceAppend(a, b, '&', "&amp;");
    var a2, b2 := Replace(a1, '<', "&lt;"), Replace(b1, '<', "&lt;");
    ReplaceAppend(a1, b1, '<', "&lt;");
    var a3, b3 := Replace(a2, '>', "&gt;"), Replace(b2, '>', "&gt;");
    ReplaceAppend(a2, b2, '>', "&gt;");
    var a4, b4 := Replace(a3, '"', "&quot;"), Replace(b3, '"', "&quot;");
    ReplaceAppend(a3, b3, '"', "&quot;");
    ReplaceAppend(a4, b4, '\'', "&#x27;");
  }

  /** True iff `t` begins with one of the five entities that Escape emits. */
  predicate StartsEntity(t: string) {
    "&amp;" <= t || "&lt;" <= t || "&gt;" <= t || "&quot;" <= t || "&#x27;" <= t
  }

  /**
   * A double-quoted attribute value that cannot end its attribute or tag
   * early: no raw `<`, `>`, `"` or `'`, and every `&` begins an entity.
   */
  predicate AttributeSafe(v: string) {
    forall i :: 0 <= i < |v| ==>
      v[i] != '<' && v[i] != '>' && v[i] != '"' && v[i] != '\'' &&
      (v[i] == '&' ==> StartsEntity(v[i..]))
  }

  lemma AttributeSafeAppend(a: string, b: string)
    requires AttributeSafe(a) && AttributeSafe(b)
    ensures AttributeSafe(a + b)
  {
    var v := a + b;
    forall i | 0 <= i < |v| && v[i] == '&'
      ensures StartsEntity(v[i..])
    {
      if i < |a| {
        assert a[i] == '&';
        assert a[i..] <= v[i..];
      } else {
        assert v[i..] == b[i - |a|..];
      }
    }
  }

  lemma EscapeCharSafe(c: char)
    ensures AttributeSafe(EscapeChar(c))
  {
    var e := EscapeChar(c);
    if c in "&<>\"'" {
      assert e[0] == '&' && StartsEntity(e);
      assert forall i :: 1 <= i < |e| ==> e[i] != '&' && e[i] != '<' && e[i] != '>' && e[i] != '"' && e[i] != '\'';
      assert e[0..] == e;
    }
  }

  lemma {:induction false} EscapeEachSafe(s: string)
    ensures AttributeSafe(EscapeEach(s))
  {
    if s != [] {
      EscapeEachSafe(s[1..]);
      EscapeCharSafe(s[0]);
      AttributeSafeAppend(EscapeChar(s[0]), EscapeEach(s[1..]));
    }
  }

  /** Whatever the input, the escaped string is a safe attribute value. */
  lemma EscapeSafe(s: string)
    ensures AttributeSafe(Escape(s))
    ensures '"' !in Escape(s) && '<' !in Escape(s)
  {
    EscapeIsEscapeEach(s);
    EscapeEachSafe(s);
  }

  /** Decoding of exactly the five entities that Escape emits. */
  function Unescape(t: string): string
    decreases |t|
  {
    if t == [] then []
    else if "&amp;" <= t then "&" + Unescape(t[5..])
    else if "&lt;" <= t then "<" + Unescape(t[4..])
    else if "&gt;" <= t then ">" + Unescape(t[4..])
    else if "&quot;" <= t then "\"" + Unescape(t[6..])
    else if "&#x27;" <= t then "'" + Unescape(t[6..])
    else [t[0]] + Unescape(t[1..])
  }

  lemma UnescapeEscapeChar(c: char, rest: string)
    ensures Unescape(EscapeChar(c) + rest) == [c] + Unescape(rest)
  {
    match c
    case '&' => UnescapeAmp(rest);
    case '<' => UnescapeLt(rest);
    case '>' => UnescapeGt(rest);
    case '"' => UnescapeQuot(rest);
    case '\'' => UnescapeApos(rest);
    case _ => UnescapePlain(c, rest);
  }

  lemma UnescapeAmp(rest: string)
    ensures Unescape("&amp;" + rest) == "&" + Unescape(rest)
  {
    var t := "&amp;" + rest;
    assert "&amp;" <= t && t[5..] == rest;
  }

  lemma UnescapeLt(rest: string)
    ensures Unescape("&lt;" + rest) == "<" + Unescape(rest)
  {
    var t := "&lt;" + rest;
    assert t[1] == 'l';
    assert "&lt;" <= t && t[4..] == rest;
  }

  lemma UnescapeGt(rest: string)
    ensures Unescape("&gt;" + rest) == ">" + Unescape(rest)
  {
    var t := "&gt;" + rest;
    assert t[1] == 'g';
    assert "&gt;" <= t && t[4..] == rest;
  }

  lemma UnescapeQuot(rest: string)
    ensures Unescape("&quot;" + rest) == "\"" + Unescape(rest)
  {
    var t := "&quot;" + rest;
    assert t[1] == 'q';
    assert "&quot;" <= t && t[6..] == rest;
  }

  lemma UnescapeApos(rest: string)
    ensures Unescape("&#x27;" + rest) == "'" + Unescape(rest)
  {
    var t := "&#x27;" + rest;
    assert t[1] == '#';
    assert "&#x27;" <= t && t[6..] == rest;
  }

  lemma UnescapePlain(c: char, rest: string)
    requires c != '&'
    ensures Unescape([c] + rest) == [c] + Unescape(rest)
  {
    var t := [c] + rest;
    assert t[0] == c && t[1..] == rest;
  }

  /** Escaping loses nothing: decoding the entities gives back the input. */
  lemma {:induction false} UnescapeEscape(s: string)
    ensures Unescape(Escape(s)) == s
  {
    EscapeIsEscapeEach(s);
    UnescapeEscapeEach(s);
  }

  lemma {:induction false} UnescapeEscapeEach(s: string)
    ensures Unescape(EscapeEach(s)) == s
  {
    if s != [] {
      UnescapeEscapeChar(s[0], EscapeEach(s[1..]));
      UnescapeEscapeEach(s[1..]);
    }
  }

  /** Different URLs never produce the same attribute value. */
  lemma EscapeInjective(s: string, t: string)
    requires Escape(s) == Escape(t)
    ensures s == t
  {
    UnescapeEscape(s);
    UnescapeEscape(t);
  }

  /** A string with none of the five special characters is left unchanged. */
  lemma {:induction false} EscapePlain(s: string)
    requires forall i :: 0 <= i < |s| ==> EscapeChar(s[i]) == [s[i]]
    ensures Escape(s) == s
  {
    EscapeIsEscapeEach(s);
    EscapeEachPlain(s);
  }

  lemma {:induction false} EscapeEachPlain(s: string)
    requires forall i :: 0 <= i < |s| ==> EscapeChar(s[i]) == [s[i]]
    ensures EscapeEach(s) == s
  {
    if s != [] {
      assert forall i :: 0 <= i < |s[1..]| ==> s[1..][i] == s[i + 1];
      EscapeEachPlain(s[1..]);
      assert EscapeChar(s[0]) == [s[0]];
    }
  }
}
