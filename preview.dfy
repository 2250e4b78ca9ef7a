/** The plain-text math preview of the result panel: a fixed chain of global
    regular-expression replacements over the LaTeX text. Each replacement is a
    left-to-right scan that, at each position, either rewrites a match and
    continues after it or keeps one character and moves on. */
module Preview {
  import opened Wrappers

  predicate StartsWith(s: string, p: string)
  {
    |p| <= |s| && s[..|p|] == p
  }

  /** `[a-z]` under the `i` flag. */
  predicate IsAsciiLetter(c: char)
  {
    'a' <= c <= 'z' || 'A' <= c <= 'Z'
  }

  /** `\w`. */
  predicate IsWordChar(c: char)
  {
    IsAsciiLetter(c) || '0' <= c <= '9' || c == '_'
  }

  /** The greedy `[^}]+` run: how many characters from the start are not `}`. */
  function NonCloseRun(s: string): (n: nat)
    ensures n <= |s|
    ensures forall k :: 0 <= k < n ==> s[k] != '}'
    ensures n < |s| ==> s[n] == '}'
  {
    if s == [] || s[0] == '}' then 0 else 1 + NonCloseRun(s[1..])
  }

  /** The greedy `[a-z]+` run (case-insensitive). */
  function LetterRun(s: string): (n: nat)
    ensures n <= |s|
    ensures forall k :: 0 <= k < n ==> IsAsciiLetter(s[k])
    ensures n < |s| ==> !IsAsciiLetter(s[n])
  {
    if s == [] || !IsAsciiLetter(s[0]) then 0 else 1 + LetterRun(s[1..])
  }

  /** `\{([^}]+)\}` at the start of `s`: the content of the group, if one starts there. */
  function Group(s: string): (r: Option<string>)
    ensures r.Some? ==> |r.value| > 0 && '}' !in r.value
    ensures r.Some? ==> |r.value| + 2 <= |s| && s[..|r.value| + 2] == "{" + r.value + "}"
  {
    if |s| > 0 && s[0] == '{' then
      var n := NonCloseRun(s[1..]);
      if 0 < n < |s| - 1 then Some(s[1..1 + n]) else None
    else None
  }

  /** A non-empty group without `}` is always recognised, whatever follows it. */
  lemma GroupOf(c: string, t: string)
    requires |c| > 0 && '}' !in c
    ensures Group("{" + c + "}" + t) == Some(c)
  {
    var s := "{" + c + "}" + t;
    assert s[1..] == c + "}" + t;
    var n := NonCloseRun(s[1..]);
    assert forall k :: 0 <= k < |c| ==> s[1..][k] == c[k];
    assert s[1..][|c|] == '}';
    assert n == |c|;
    assert s[1..1 + n] == c;
  }

  // ----- step 1: \frac{A}{B} -> (A)/(B)

  const Frac: string := "\\frac"

  /** `\\frac\{([^}]+)\}\{([^}]+)\}` at the start of `s`: numerator and denominator. */
  function FracAt(s: string): (r: Option<(string, string)>)
    ensures r.Some? ==> 9 + |r.value.0| + |r.value.1| <= |s|
    ensures r.Some? ==> var (a, b) := r.value;
      && |a| > 0 && '}' !in a && |b| > 0 && '}' !in b
      && s[..9 + |a| + |b|] == Frac + "{" + a + "}{" + b + "}"
  {
    if StartsWith(s, Frac) then
      match Group(s[5..])
      case None => None
      case Some(a) =>
        (match Group(s[7 + |a|..])
         case None => None
         case Some(b) => Some((a, b)))
    else None
  }

  function Fracs(s: string): string
    decreases |s|
  {
    if s == [] then []
    else match FracAt(s)
      case Some((a, b)) => "(" + a + ")/(" + b + ")" + Fracs(s[9 + |a| + |b|..])
      case None => [s[0]] + Fracs(s[1..])
  }

  // ----- step 2: \sqrt{A} -> √(A)

  const Sqrt: string := "\\sqrt"

  function SqrtAt(s: string): (r: Option<string>)
    ensures r.Some? ==> 7 + |r.value| <= |s|
    ensures r.Some? ==> |r.value| > 0 && '}' !in r.value && s[..7 + |r.value|] == Sqrt + "{" + r.value + "}"
  {
    if StartsWith(s, Sqrt) then Group(s[5..]) else None
  }

  function Sqrts(s: string): string
    decreases |s|
  {
    if s == [] then []
    else match SqrtAt(s)
      case Some(a) => "√(" + a + ")" + Sqrts(s[7 + |a|..])
      case None => [s[0]] + Sqrts(s[1..])
  }

  // ----- steps 3 to 8 and 11: literal patterns

  /** Global replacement of a literal pattern. */
  function ReplaceAll(s: string, pat: string, rep: string): string
    requires |pat| > 0
    decreases |s|
  {
    if s == [] then []
    else if StartsWith(s, pat) then rep + ReplaceAll(s[|pat|..], pat, rep)
    else [s[0]] + ReplaceAll(s[1..], pat, rep)
  }

  // ----- steps 9 and 10: ^{..} / ^x and _{..} / _x

  /** `p1.replace(/[{}]/g, '')`. */
  function WithoutBraces(s: string): (r: string)
    ensures '{' !in r && '}' !in r
    ensures forall c :: c in r <==> c in s && c != '{' && c != '}'
    ensures |r| <= |s|
  {
    if s == [] then []
    else (if s[0] == '{' || s[0] == '}' then [] else [s[0]]) + WithoutBraces(s[1..])
  }

  /** `/M(\{[^}]+\}|\w)/g` with the braces dropped from what matched, for the
      marker M, which is `^` or `_`. */
  function Scripts(s: string, mark: char): string
    decreases |s|
  {
    if s == [] then []
    else if s[0] == mark && Group(s[1..]).Some? then
      var c := Group(s[1..]).value;
      [mark] + WithoutBraces(c) + Scripts(s[3 + |c|..], mark)
    else if s[0] == mark && |s| > 1 && IsWordChar(s[1]) then
      [mark, s[1]] + Scripts(s[2..], mark)
    else [s[0]] + Scripts(s[1..], mark)
  }

  // ----- step 12: drop every remaining \command

  /** `/\\[a-z]+/gi` replaced by nothing. */
  function StripCommands(s: string): string
    decreases |s|
  {
    if s == [] then []
    else if s[0] == '\\' && |s| > 1 && IsAsciiLetter(s[1]) then StripCommands(s[1 + LetterRun(s[1..])..])
    else [s[0]] + StripCommands(s[1..])
  }

  /** Steps 3 to 8: the six commands that have a symbol of their own. */
  function Symbols(s: string): string
  {
    var s1 := ReplaceAll(s, "\\sum", "Σ");
    var s2 := ReplaceAll(s1, "\\int", "∫");
    var s3 := ReplaceAll(s2, "\\alpha", "α");
    var s4 := ReplaceAll(s3, "\\beta", "β");
    var s5 := ReplaceAll(s4, "\\pi", "π");
    ReplaceAll(s5, "\\theta", "θ")
  }

  /** Steps 3 to 11. */
  function Later(s: string): string
  {
    ReplaceAll(Scripts(Scripts(Symbols(s), '^'), '_'), "\\\\", "\n")
  }

  /** Steps 1 to 11: everything before the last step. */
  function Rewritten(tex: string): string
  {
    Later(Sqrts(Fracs(tex)))
  }

  /** `renderLatexPreview`: the whole chain, in source order. No preview ever
      shows a backslash directly followed by an ASCII letter. */
  function RenderPreview(tex: string): (r: string)
    ensures NoCommand(r)
  {
    StripLeavesNoCommand(Rewritten(tex));
    StripCommands(Rewritten(tex))
  }

  // ----- what each step does to a match

  lemma FracRewrite(a: string, b: string, t: string)
    requires |a| > 0 && '}' !in a && |b| > 0 && '}' !in b
    ensures Fracs(Frac + "{" + a + "}{" + b + "}" + t) == "(" + a + ")/(" + b + ")" + Fracs(t)
  {
    var s := Frac + "{" + a + "}{" + b + "}" + t;
    assert StartsWith(s, Frac);
    assert s[5..] == "{" + a + "}" + ("{" + b + "}" + t);
    GroupOf(a, "{" + b + "}" + t);
    assert s[7 + |a|..] == "{" + b + "}" + t;
    GroupOf(b, t);
    assert s[9 + |a| + |b|..] == t;
  }

  lemma SqrtRewrite(a: string, t: string)
    requires |a| > 0 && '}' !in a
    ensures Sqrts(Sqrt + "{" + a + "}" + t) == "√(" + a + ")" + Sqrts(t)
  {
    var s := Sqrt + "{" + a + "}" + t;
    assert StartsWith(s, Sqrt);
    assert s[5..] == "{" + a + "}" + t;
    GroupOf(a, t);
    assert s[7 + |a|..] == t;
  }

  lemma ReplaceRewrite(pat: string, rep: string, t: string)
    requires |pat| > 0
    ensures ReplaceAll(pat + t, pat, rep) == rep + ReplaceAll(t, pat, rep)
  {
    assert StartsWith(pat + t, pat);
    assert (pat + t)[|pat|..] == t;
  }

  /** `^{xy}` becomes `^xy`: the braces go, the content stays. */
  lemma ScriptGroupRewrite(mark: char, c: string, t: string)
    requires |c| > 0 && '}' !in c
    ensures Scripts([mark] + "{" + c + "}" + t, mark) == [mark] + WithoutBraces(c) + Scripts(t, mark)
  {
    var s := [mark] + "{" + c + "}" + t;
    assert s[1..] == "{" + c + "}" + t;
    GroupOf(c, t);
    assert s[3 + |c|..] == t;
  }

  /** `^x` for a single word character stays as it is. */
  lemma ScriptWordRewrite(mark: char, w: char, t: string)
    requires IsWordChar(w)
    ensures Scripts([mark, w] + t, mark) == [mark, w] + Scripts(t, mark)
  {
    var s := [mark, w] + t;
    assert s[1..] == [w] + t;
    assert s[2..] == t;
  }

  /** The content of a group loses its braces and nothing else. */
  lemma {:induction false} WithoutBracesKeepsOthers(s: string)
    requires '{' !in s && '}' !in s
    ensures WithoutBraces(s) == s
  {
    if s != [] {
      WithoutBracesKeepsOthers(s[1..]);
    }
  }

  /** The brace-stripping works piece by piece, so with the membership clause
      of WithoutBraces it keeps every other character in its order. */
  lemma {:induction false} WithoutBracesConcat(a: string, b: string)
    ensures WithoutBraces(a + b) == WithoutBraces(a) + WithoutBraces(b)
  {
    if a == [] {
      assert a + b == b;
    } else {
      var head := if a[0] == '{' || a[0] == '}' then [] else [a[0]];
      assert (a + b)[0] == a[0];
      assert (a + b)[1..] == a[1..] + b;
      WithoutBracesConcat(a[1..], b);
      calc {
        WithoutBraces(a + b);
        head + WithoutBraces(a[1..] + b);
        head + (WithoutBraces(a[1..]) + WithoutBraces(b));
        (head + WithoutBraces(a[1..])) + WithoutBraces(b);
        WithoutBraces(a) + WithoutBraces(b);
      }
    }
  }

  // ----- no command survives step 12

  /** No backslash is directly followed by an ASCII letter. */
  predicate NoCommand(s: string)
  {
    forall k :: 0 < k < |s| ==> s[k - 1] == '\\' ==> !IsAsciiLetter(s[k])
  }

  predicate StartsWithoutLetter(s: string)
  {
    s == [] || !IsAsciiLetter(s[0])
  }

  lemma {:induction false} StripStartsWithoutLetter(s: string)
    requires StartsWithoutLetter(s)
    ensures StartsWithoutLetter(StripCommands(s))
    decreases |s|
  {
    if s != [] && s[0] == '\\' && |s| > 1 && IsAsciiLetter(s[1]) {
      var n := LetterRun(s[1..]);
      assert StartsWithoutLetter(s[1 + n..]) by {
        if 1 + n < |s| { assert s[1 + n] == s[1..][n]; }
      }
      StripStartsWithoutLetter(s[1 + n..]);
    }
  }

  lemma {:induction false} StripLeavesNoCommand(s: string)
    ensures NoCommand(StripCommands(s))
    decreases |s|
  {
    if s == [] {
    } else if s[0] == '\\' && |s| > 1 && IsAsciiLetter(s[1]) {
      StripLeavesNoCommand(s[1 + LetterRun(s[1..])..]);
    } else {
      var rest := StripCommands(s[1..]);
      StripLeavesNoCommand(s[1..]);
      if s[0] == '\\' {
        StripStartsWithoutLetter(s[1..]);
      }
      var r := [s[0]] + rest;
      assert StripCommands(s) == r;
      forall k | 0 < k < |r| && r[k - 1] == '\\' ensures !IsAsciiLetter(r[k]) {
        if k > 1 {
          assert r[k - 1] == rest[k - 2] && r[k] == rest[k - 1];
        }
      }
    }
  }

  // ----- text without `\`, `^` and `_` passes through

  lemma {:induction false} FracsKeepPlain(s: string)
    requires '\\' !in s
    ensures Fracs(s) == s
    decreases |s|
  {
    if s != [] {
      assert s[0] in s;
      assert s[0] != Frac[0];
      assert !StartsWith(s, Frac) by { assert |Frac| <= |s| ==> s[..|Frac|][0] == s[0]; }
      FracsKeepPlain(s[1..]);
    }
  }

  lemma {:induction false} SqrtsKeepPlain(s: string)
    requires '\\' !in s
    ensures Sqrts(s) == s
    decreases |s|
  {
    if s != [] {
      assert s[0] in s;
      assert s[0] != Sqrt[0];
      assert !StartsWith(s, Sqrt) by { assert |Sqrt| <= |s| ==> s[..|Sqrt|][0] == s[0]; }
      SqrtsKeepPlain(s[1..]);
    }
  }

  lemma {:induction false} ReplaceKeepsPlain(s: string, pat: string, rep: string)
    requires |pat| > 0 && pat[0] !in s
    ensures ReplaceAll(s, pat, rep) == s
    decreases |s|
  {
    if s != [] {
      assert s[0] in s;
      assert s[0] != pat[0];
      assert !StartsWith(s, pat) by { assert |pat| <= |s| ==> s[..|pat|][0] == s[0]; }
      ReplaceKeepsPlain(s[1..], pat, rep);
    }
  }

  lemma {:induction false} ScriptsKeepPlain(s: string, mark: char)
    requires mark !in s
    ensures Scripts(s, mark) == s
    decreases |s|
  {
    if s != [] {
      assert s[0] in s;
      ScriptsKeepPlain(s[1..], mark);
    }
  }

  lemma {:induction false} StripKeepsPlain(s: string)
    requires '\\' !in s
    ensures StripCommands(s) == s
    decreases |s|
  {
    if s != [] {
      assert s[0] in s;
      StripKeepsPlain(s[1..]);
    }
  }

  predicate Plain(s: string)
  {
    '\\' !in s && '^' !in s && '_' !in s
  }

  lemma LaterKeepsPlain(s: string)
    requires Plain(s)
    ensures Later(s) == s
  {
    ReplaceKeepsPlain(s, "\\sum", "Σ");
    ReplaceKeepsPlain(s, "\\int", "∫");
    ReplaceKeepsPlain(s, "\\alpha", "α");
    ReplaceKeepsPlain(s, "\\beta", "β");
    ReplaceKeepsPlain(s, "\\pi", "π");
    ReplaceKeepsPlain(s, "\\theta", "θ");
    ScriptsKeepPlain(s, '^');
    ScriptsKeepPlain(s, '_');
    ReplaceKeepsPlain(s, "\\\\", "\n");
  }

  /** Text with no `\`, `^` or `_` is shown as it is. */
  lemma PreviewKeepsPlain(s: string)
    requires Plain(s)
    ensures RenderPreview(s) == s
  {
    FracsKeepPlain(s);
    SqrtsKeepPlain(s);
    LaterKeepsPlain(s);
    StripKeepsPlain(s);
  }

  /** A whole fraction of plain parts previews as `(A)/(B)`. */
  lemma PreviewFraction(a: string, b: string)
    requires |a| > 0 && Plain(a) && '}' !in a
    requires |b| > 0 && Plain(b) && '}' !in b
    ensures RenderPreview(Frac + "{" + a + "}{" + b + "}") == "(" + a + ")/(" + b + ")"
  {
    var tex := Frac + "{" + a + "}{" + b + "}";
    var out := "(" + a + ")/(" + b + ")";
    assert tex == Frac + "{" + a + "}{" + b + "}" + "";
    FracRewrite(a, b, "");
    assert out + "" == out;
    assert Fracs(tex) == out;
    assert Plain(out) by {
      forall c | c in out ensures c != '\\' && c != '^' && c != '_' {
        assert c in "()/" || c in a || c in b;
      }
    }
    SqrtsKeepPlain(out);
    LaterKeepsPlain(out);
    StripKeepsPlain(out);
  }

  /** The fraction step leaves a square root alone. */
  lemma FracsKeepSquareRoot(a: string)
    requires Plain(a)
    ensures Fracs(Sqrt + "{" + a + "}") == Sqrt + "{" + a + "}"
  {
    var tex := Sqrt + "{" + a + "}";
    assert !StartsWith(tex, Frac) by { assert tex[..5][1] == 's'; }
    var rest := "sqrt{" + a + "}";
    assert tex[1..] == rest;
    assert '\\' !in rest by {
      forall c | c in rest ensures c != '\\' {
        assert c in "sqrt{}" || c in a;
      }
    }
    FracsKeepPlain(rest);
  }

  /** A whole square root of a plain radicand previews as `√(A)`. */
  lemma PreviewSquareRoot(a: string)
    requires |a| > 0 && Plain(a) && '}' !in a
    ensures RenderPreview(Sqrt + "{" + a + "}") == "√(" + a + ")"
  {
    var tex := Sqrt + "{" + a + "}";
    var out := "√(" + a + ")";
    FracsKeepSquareRoot(a);
    assert tex == Sqrt + "{" + a + "}" + "";
    SqrtRewrite(a, "");
    assert out + "" == out;
    assert Sqrts(Fracs(tex)) == out;
    assert Plain(out) by {
      forall c | c in out ensures c != '\\' && c != '^' && c != '_' {
        assert c in "√()" || c in a;
      }
    }
    LaterKeepsPlain(out);
    StripKeepsPlain(out);
  }
}
