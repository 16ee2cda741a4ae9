/** `_expr(node, max_len)`, identical in the three logic-map scripts:
    `ast.unparse(node)` with every newline turned into a space, then passed
    through `textwrap.shorten(..., width=max_len, placeholder=" … ")`. */
module ExprText {
  import opened Wrappers
  import opened Strings
  import opened PyAst
  import opened TextWrap

  /** code.replace("\n", " ") keeps the length and changes only newlines. */
  lemma {:induction false} ReplaceNewlines(s: string)
    ensures |Replace(s, "\n", " ")| == |s|
    ensures forall i :: 0 <= i < |s| ==>
      Replace(s, "\n", " ")[i] == if s[i] == '\n' then ' ' else s[i]
    decreases |s|
  {
    if |s| >= 1 {
      ReplaceNewlines(s[1..]);
      if s[..1] == "\n" {
        assert s[0] == '\n';
      } else {
        assert s[0] != '\n';
      }
    }
  }

  /** Two strings that differ only where both hold whitespace. */
  predicate SameUpToSpaces(s: string, t: string) {
    |s| == |t| && forall i :: 0 <= i < |s| ==> s[i] == t[i] || (IsSpace(s[i]) && IsSpace(t[i]))
  }

  /** str.split() does not see which whitespace character separates words. */
  lemma {:induction false} SameUpToSpacesSameWords(s: string, t: string)
    requires SameUpToSpaces(s, t)
    ensures Words(s) == Words(t)
    decreases |s|
  {
    if s != [] {
      if IsSpace(s[0]) {
        assert SameUpToSpaces(s[1..], t[1..]) by {
          forall i | 0 <= i < |s[1..]|
            ensures s[1..][i] == t[1..][i] || (IsSpace(s[1..][i]) && IsSpace(t[1..][i]))
          {
            assert s[1..][i] == s[i + 1] && t[1..][i] == t[i + 1];
          }
        }
        SameUpToSpacesSameWords(s[1..], t[1..]);
      } else {
        var k := TokenEnd(s, 0);
        assert NoSpace(t[0..k]) && s[..k] == t[..k] by {
          forall i | 0 <= i < k
            ensures t[i] == s[i]
          {
            assert s[i] == s[0..k][i];
          }
        }
        TokenEndIsFirstSpace(t, 0, k);
        assert SameUpToSpaces(s[k..], t[k..]) by {
          forall i | 0 <= i < |s[k..]|
            ensures s[k..][i] == t[k..][i] || (IsSpace(s[k..][i]) && IsSpace(t[k..][i]))
          {
            assert s[k..][i] == s[k + i] && t[k..][i] == t[k + i];
          }
        }
        SameUpToSpacesSameWords(s[k..], t[k..]);
      }
    }
  }

  /** Replacing newlines by spaces leaves the words of a text unchanged. */
  lemma {:induction false} NewlinesKeepWords(s: string)
    ensures Words(Replace(s, "\n", " ")) == Words(s)
  {
    ReplaceNewlines(s);
    SameUpToSpacesSameWords(Replace(s, "\n", " "), s);
  }

  /** `_expr(node, max_len)`: a one-line rendering of an expression, never
      longer than max_len (see ShortExprFits for what it keeps). */
  function ShortExpr(e: Expr, maxLen: int): (r: string)
    requires maxLen >= |BarePlaceholder|
    ensures |r| <= maxLen
    ensures '\n' !in r
  {
    var code := Replace(Unparse(e), "\n", " ");
    ShortenHasOnlyPlainSpaces(code, maxLen);
    var r := Shorten(code, maxLen);
    assert forall i :: 0 <= i < |r| ==> r[i] != '\n';
    r
  }

  /** `_expr(node, max_len)` with its failure: ValueError from textwrap for
      every width below 2, whatever the expression; otherwise `ShortExpr`. */
  function ExprOutcome(e: Expr, maxLen: int): (r: Result<string, WrapError>)
    ensures r.Failure? <==> !WidthOk(maxLen)
    ensures r.Failure? ==> r.error == WidthError(maxLen)
    ensures r.Success? ==> r.value == ShortExpr(e, maxLen)
  {
    ShortenChecked(Replace(Unparse(e), "\n", " "), maxLen)
  }

  /** An expression whose collapsed source fits is rendered whole, with its
      line breaks turned into single spaces; a longer one is cut at a word
      boundary and closed by the placeholder. Either way the only whitespace
      left is the plain space. */
  lemma {:induction false} ShortExprFits(e: Expr, maxLen: int)
    requires maxLen >= |BarePlaceholder|
    ensures |Collapse(Unparse(e))| <= maxLen ==> ShortExpr(e, maxLen) == Collapse(Unparse(e))
    ensures |Collapse(Unparse(e))| > maxLen ==> EndsWith(ShortExpr(e, maxLen), BarePlaceholder)
    ensures forall i :: 0 <= i < |ShortExpr(e, maxLen)| ==> ShortExpr(e, maxLen)[i] == ' ' || !IsSpace(ShortExpr(e, maxLen)[i])
  {
    NewlinesKeepWords(Unparse(e));
    if |Collapse(Unparse(e))| > maxLen {
      ShortenCuts(Replace(Unparse(e), "\n", " "), maxLen);
    }
    ShortenHasOnlyPlainSpaces(Replace(Unparse(e), "\n", " "), maxLen);
  }
}
