/** textwrap.shorten(text, width, placeholder=" … ") by its documented contract:
    whitespace is collapsed; a text that fits is returned as it is; otherwise
    words are dropped from the end until the kept words followed by the
    placeholder fit. When not even one word fits, the result is the placeholder
    with its leading whitespace removed, "… ". */
module TextWrap {
  import opened Wrappers
  import opened Strings

  const Placeholder: string := " … "

  /** The placeholder alone, as shorten emits it when no word fits. */
  const BarePlaceholder: string := "… "

  /** Whether shorten accepts the width: the stripped placeholder "… " must
      fit on the one line. */
  predicate WidthOk(width: int) {
    width >= |BarePlaceholder|
  }

  /** The ValueError textwrap raises for a width it rejects. */
  datatype WrapError = InvalidWidth | PlaceholderTooLarge

  /** Which error: "invalid width" for a width that is not positive, and
      "placeholder too large for max width" for a positive one that is too
      small. */
  function WidthError(width: int): WrapError
    requires !WidthOk(width)
  {
    if width <= 0 then InvalidWidth else PlaceholderTooLarge
  }

  /** The text shorten produces when it keeps the first k words. */
  function Kept(words: seq<string>, k: nat): string
    requires k <= |words|
  {
    if k == 0 then BarePlaceholder else Join(words[..k], " ") + Placeholder
  }

  /** Whether the first k words plus the placeholder fit in width. */
  predicate FitsWithPlaceholder(words: seq<string>, k: nat, width: int)
    requires k <= |words|
  {
    |Join(words[..k], " ")| + |Placeholder| <= width
  }

  /** The largest k <= hi whose words fit with the placeholder, or 0. */
  function FitCount(words: seq<string>, width: int, hi: nat): (k: nat)
    requires hi <= |words|
    ensures k <= hi
    ensures k == 0 || FitsWithPlaceholder(words, k, width)
    ensures forall j :: k < j <= hi ==> !FitsWithPlaceholder(words, j, width)
  {
    if hi == 0 then 0
    else if FitsWithPlaceholder(words, hi, width) then hi
    else FitCount(words, width, hi - 1)
  }

  /** textwrap.shorten(text, width, placeholder=" … "). The width must leave
      room for the stripped placeholder "… "; a smaller width raises ValueError
      in the library. */
  function Shorten(text: string, width: int): (r: string)
    requires width >= |BarePlaceholder|
    ensures |r| <= width
    ensures |Collapse(text)| <= width ==> r == Collapse(text)
  {
    var words := Words(text);
    var line := Join(words, " ");
    if |line| <= width then line
    else Kept(words, FitCount(words, width, |words|))
  }

  /** textwrap.shorten with its failure: every width too small for the
      placeholder raises, whatever the text; any other width gives `Shorten`. */
  function ShortenChecked(text: string, width: int): (r: Result<string, WrapError>)
    ensures r.Failure? <==> !WidthOk(width)
    ensures r.Failure? ==> r.error == (if width <= 0 then InvalidWidth else PlaceholderTooLarge)
    ensures r.Success? ==> |r.value| <= width
    ensures r.Success? && |Collapse(text)| <= width ==> r.value == Collapse(text)
  {
    if !WidthOk(width) then Failure(WidthError(width)) else Success(Shorten(text, width))
  }

  /** A text too long for the width keeps the longest run of leading words
      that fits together with the placeholder, and ends with the placeholder. */
  lemma {:induction false} ShortenCuts(text: string, width: int)
    requires width >= |BarePlaceholder|
    requires |Collapse(text)| > width
    ensures EndsWith(Shorten(text, width), BarePlaceholder)
    ensures exists k ::
      && 0 <= k < |Words(text)|
      && Shorten(text, width) == Kept(Words(text), k)
      && (k == 0 || FitsWithPlaceholder(Words(text), k, width))
      && (forall j :: k < j <= |Words(text)| ==> !FitsWithPlaceholder(Words(text), j, width))
  {
    var words := Words(text);
    var k := FitCount(words, width, |words|);
    assert words[..|words|] == words;
    assert Shorten(text, width) == Kept(words, k);
  }

  /** Every kept text holds no whitespace but the plain space: a shortened
      string never contains a newline. */
  lemma {:induction false} KeptHasOnlyPlainSpaces(words: seq<string>, k: nat)
    requires k <= |words|
    requires forall j :: 0 <= j < |words| ==> NoSpace(words[j])
    ensures forall i :: 0 <= i < |Kept(words, k)| ==> Kept(words, k)[i] == ' ' || !IsSpace(Kept(words, k)[i])
  {
    if k > 0 {
      var joined := Join(words[..k], " ");
      forall i | 0 <= i < |joined|
        ensures joined[i] == ' ' || !IsSpace(joined[i])
      {
        JoinedCharacters(words[..k], i);
      }
    }
  }

  lemma {:induction false} ShortenHasOnlyPlainSpaces(text: string, width: int)
    requires width >= |BarePlaceholder|
    ensures forall i :: 0 <= i < |Shorten(text, width)| ==> Shorten(text, width)[i] == ' ' || !IsSpace(Shorten(text, width)[i])
  {
    var words := Words(text);
    if |Join(words, " ")| <= width {
      CollapseHasOnlyPlainSpaces(text);
    } else {
      KeptHasOnlyPlainSpaces(words, FitCount(words, width, |words|));
    }
  }
}
