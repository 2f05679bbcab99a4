/**
 * The helpers of the perceptron library (src/utils/utils.cpp): strtok-based
 * splitting, formatting a vector as "[a, b, c]", copying a vector into a
 * fresh array, and the larger of two ints.
 */
module Utils {
  import opened Optional

  /** A C++ `int` on the platforms the library targets. */
  newtype int32 = x: int | -0x8000_0000 <= x < 0x8000_0000

  /** `imax`: the larger of the two; when they are equal, `b` (the same value). */
  function IMax(a: int32, b: int32): (r: int32)
    ensures r >= a && r >= b
    ensures r == a || r == b
  {
    if a > b then a else b
  }

  // ---------------------------------------------------------------------
  // split: the reference definition of what repeated strtok calls yield
  // ---------------------------------------------------------------------

  /** Every character of `s` is one of the delimiter characters. */
  predicate AllDelimiters(s: string, delimiter: string) {
    forall i :: 0 <= i < |s| ==> s[i] in delimiter
  }

  /** No character of `s` is one of the delimiter characters. */
  predicate DelimiterFree(s: string, delimiter: string) {
    forall i :: 0 <= i < |s| ==> s[i] !in delimiter
  }

  /** Length of the longest prefix of `s` made of non-delimiter characters. */
  function WordLength(s: string, delimiter: string): (n: nat)
    ensures n <= |s|
    ensures DelimiterFree(s[..n], delimiter)
    ensures n < |s| ==> s[n] in delimiter
  {
    if s == [] || s[0] in delimiter then 0 else 1 + WordLength(s[1..], delimiter)
  }

  /** WordLength is the first delimiter position (or |s|), whichever way it was found. */
  lemma {:induction false} WordLengthIs(s: string, delimiter: string, k: nat)
    requires k <= |s| && DelimiterFree(s[..k], delimiter)
    requires k < |s| ==> s[k] in delimiter
    ensures WordLength(s, delimiter) == k
  {
    if k > 0 {
      assert s[..k][0] == s[0];
      assert s[1..][..k - 1] == s[..k][1..];
      WordLengthIs(s[1..], delimiter, k - 1);
    }
  }

  /**
   * The tokens of `s`: the maximal runs of non-delimiter characters, in
   * order. `delimiter` is a set of characters, not a substring.
   */
  function Tokens(s: string, delimiter: string): seq<string>
    decreases |s|
  {
    if s == [] then []
    else if s[0] in delimiter then Tokens(s[1..], delimiter)
    else
      var n := WordLength(s, delimiter);
      [s[..n]] + Tokens(s[n..], delimiter)
  }

  /** `s` with every delimiter character removed. */
  function RemoveDelimiters(s: string, delimiter: string): (r: string)
    ensures |r| <= |s|
  {
    if s == [] then []
    else (if s[0] in delimiter then [] else [s[0]]) + RemoveDelimiters(s[1..], delimiter)
  }

  /** The concatenation of a list of strings. */
  function Concat(parts: seq<string>): string {
    if parts == [] then [] else parts[0] + Concat(parts[1..])
  }

  lemma ConcatAppend(a: seq<string>, b: seq<string>)
    ensures Concat(a + b) == Concat(a) + Concat(b)
  {
    if a == [] {
      assert a + b == b;
    } else {
      assert (a + b)[1..] == a[1..] + b;
      ConcatAppend(a[1..], b);
    }
  }

  lemma {:induction false} RemoveDelimitersAppend(a: string, b: string, delimiter: string)
    ensures RemoveDelimiters(a + b, delimiter) == RemoveDelimiters(a, delimiter) + RemoveDelimiters(b, delimiter)
  {
    if a == [] {
      assert a + b == b;
    } else {
      assert (a + b)[1..] == a[1..] + b;
      RemoveDelimitersAppend(a[1..], b, delimiter);
    }
  }

  /** A delimiter-free string is left as it is by RemoveDelimiters. */
  lemma {:induction false} RemoveDelimitersOfWord(w: string, delimiter: string)
    requires DelimiterFree(w, delimiter)
    ensures RemoveDelimiters(w, delimiter) == w
  {
    if w != [] {
      assert DelimiterFree(w[1..], delimiter);
      RemoveDelimitersOfWord(w[1..], delimiter);
    }
  }

  /** No token is empty: runs of delimiters, leading or trailing ones produce nothing. */
  lemma {:induction false} TokensNonEmpty(s: string, delimiter: string)
    ensures forall k :: 0 <= k < |Tokens(s, delimiter)| ==> |Tokens(s, delimiter)[k]| > 0
    decreases |s|
  {
    if s == [] {
    } else if s[0] in delimiter {
      TokensNonEmpty(s[1..], delimiter);
    } else {
      var n := WordLength(s, delimiter);
      TokensNonEmpty(s[n..], delimiter);
    }
  }

  /** No token contains a delimiter character. */
  lemma {:induction false} TokensDelimiterFree(s: string, delimiter: string)
    ensures forall k :: 0 <= k < |Tokens(s, delimiter)| ==> DelimiterFree(Tokens(s, delimiter)[k], delimiter)
    decreases |s|
  {
    if s == [] {
    } else if s[0] in delimiter {
      TokensDelimiterFree(s[1..], delimiter);
    } else {
      var n := WordLength(s, delimiter);
      TokensDelimiterFree(s[n..], delimiter);
    }
  }

  /** The tokens, concatenated in order, are the input without its delimiter characters. */
  lemma {:induction false} TokensConcat(s: string, delimiter: string)
    ensures Concat(Tokens(s, delimiter)) == RemoveDelimiters(s, delimiter)
    decreases |s|
  {
    if s == [] {
    } else if s[0] in delimiter {
      TokensConcat(s[1..], delimiter);
    } else {
      var n := WordLength(s, delimiter);
      var rest := Tokens(s[n..], delimiter);
      TokensConcat(s[n..], delimiter);
      assert Tokens(s, delimiter) == [s[..n]] + rest;
      assert ([s[..n]] + rest)[1..] == rest;
      assert s == s[..n] + s[n..];
      RemoveDelimitersAppend(s[..n], s[n..], delimiter);
      RemoveDelimitersOfWord(s[..n], delimiter);
    }
  }

  /** There are no tokens exactly when the input is empty or made only of delimiters. */
  lemma {:induction false} TokensEmptyIff(s: string, delimiter: string)
    ensures Tokens(s, delimiter) == [] <==> AllDelimiters(s, delimiter)
    decreases |s|
  {
    if s == [] {
    } else if s[0] in delimiter {
      TokensEmptyIff(s[1..], delimiter);
      assert AllDelimiters(s, delimiter) <==> AllDelimiters(s[1..], delimiter) by {
        if AllDelimiters(s[1..], delimiter) {
          forall i | 0 <= i < |s| ensures s[i] in delimiter {
            if i > 0 { assert s[i] == s[1..][i - 1]; }
          }
        }
      }
    } else {
      assert !AllDelimiters(s, delimiter);
    }
  }

  /** A non-empty delimiter-free string is a single token. */
  lemma TokensOfWord(w: string, delimiter: string)
    requires w != [] && DelimiterFree(w, delimiter)
    ensures Tokens(w, delimiter) == [w]
  {
    var n := WordLength(w, delimiter);
    assert n == |w|;
    assert w[..n] == w;
    assert w[n..] == [];
  }

  /** One delimiter character cuts the input in two parts that are tokenised independently. */
  lemma {:induction false} TokensSplitAt(a: string, c: char, b: string, delimiter: string)
    requires c in delimiter
    ensures Tokens(a + [c] + b, delimiter) == Tokens(a, delimiter) + Tokens(b, delimiter)
    decreases |a|
  {
    var s := a + [c] + b;
    if a == [] {
      assert s[1..] == b;
    } else if a[0] in delimiter {
      assert s[1..] == a[1..] + [c] + b;
      TokensSplitAt(a[1..], c, b, delimiter);
    } else {
      var n := WordLength(a, delimiter);
      var m := WordLength(s, delimiter);
      assert s[..n] == a[..n];
      assert n < |s| && s[n] in delimiter by {
        if n < |a| { assert s[n] == a[n]; } else { assert s[n] == c; }
      }
      WordLengthIs(s, delimiter, n);
      assert s[m..] == a[n..] + [c] + b;
      TokensSplitAt(a[n..], c, b, delimiter);
    }
  }

  // ---------------------------------------------------------------------
  // split: the imperative strtok loop
  // ---------------------------------------------------------------------

  /** A delimiter character in front of the tokens of `s[i + 1..]` adds none. */
  lemma TokensSkip(s: string, i: nat, delimiter: string)
    requires i < |s| && s[i] in delimiter
    ensures Tokens(s[i..], delimiter) == Tokens(s[i + 1..], delimiter)
  {
    assert s[i..][1..] == s[i + 1..];
  }

  /**
   * A run `s[i..j]` of non-delimiter characters that ends at a delimiter
   * (or at the end of `s`) is the first token of `s[i..]`; the others
   * follow that delimiter.
   */
  lemma TokensTake(s: string, i: nat, j: nat, delimiter: string)
    requires i < j <= |s| && forall k :: i <= k < j ==> s[k] !in delimiter
    requires j < |s| ==> s[j] in delimiter
    ensures Tokens(s[i..], delimiter) == [s[i..j]] + Tokens(s[if j < |s| then j + 1 else j..], delimiter)
  {
    var w := s[i..];
    var n := j - i;
    assert w[..n] == s[i..j];
    WordLengthIs(w, delimiter, n);
    assert w[n..] == s[j..];
    if j < |s| {
      assert s[j..][1..] == s[j + 1..];
    }
  }

  /**
   * One call of `strtok`, whose hidden cursor is passed in and handed back:
   * skip delimiter characters, then take the characters up to the next
   * delimiter, which strtok overwrites with NUL and steps past.
   */
  method Strtok(s: string, delimiter: string, cursor: nat) returns (token: Option<string>, next: nat)
    requires cursor <= |s|
    ensures cursor <= next <= |s|
    ensures token.None? ==> Tokens(s[cursor..], delimiter) == [] && next == |s|
    ensures token.Some? ==> cursor < next && Tokens(s[cursor..], delimiter) == [token.value] + Tokens(s[next..], delimiter)
  {
    var i := cursor;
    while i < |s| && s[i] in delimiter
      invariant cursor <= i <= |s|
      invariant Tokens(s[cursor..], delimiter) == Tokens(s[i..], delimiter)
    {
      TokensSkip(s, i, delimiter);
      i := i + 1;
    }
    if i == |s| {
      return None, i;
    }
    var j := i;
    while j < |s| && s[j] !in delimiter
      invariant i <= j <= |s|
      invariant forall k :: i <= k < j ==> s[k] !in delimiter
    {
      j := j + 1;
    }
    TokensTake(s, i, j, delimiter);
    token := Some(s[i..j]);
    next := if j < |s| then j + 1 else j;
  }

  /** `split`: the tokens of `str` separated by any of the characters of `delimiter`. */
  method Split(str: string, delimiter: string) returns (tokens: seq<string>)
    ensures tokens == Tokens(str, delimiter)
  {
    tokens := [];
    assert str[0..] == str;
    var token, cursor := Strtok(str, delimiter, 0);
    while token.Some?
      invariant cursor <= |str|
      invariant token.Some? ==> Tokens(str, delimiter) == tokens + [token.value] + Tokens(str[cursor..], delimiter)
      invariant token.None? ==> Tokens(str, delimiter) == tokens
      decreases |str| - cursor + (if token.Some? then 1 else 0)
    {
      tokens := tokens + [token.value];
      token, cursor := Strtok(str, delimiter, cursor);
    }
  }

  // ---------------------------------------------------------------------
  // vectorToString
  // ---------------------------------------------------------------------

  /** `parts` separated by `sep`, built left to right as the stream loop does. */
  function Join(parts: seq<string>, sep: string): string
  {
    if parts == [] then ""
    else if |parts| == 1 then parts[0]
    else Join(parts[..|parts| - 1], sep) + sep + parts[|parts| - 1]
  }

  /** The elements of `vec` as the element formatter writes them. */
  function Formatted(vec: seq<real>, format: real -> string): (r: seq<string>)
    ensures |r| == |vec|
    ensures forall i :: 0 <= i < |vec| ==> r[i] == format(vec[i])
  {
    seq(|vec|, i requires 0 <= i < |vec| => format(vec[i]))
  }

  /**
   * `vectorToString`: "[" then the elements separated by ", " then "]".
   * `format` stands for the stream's formatting of one double.
   */
  method VectorToString(vec: seq<real>, format: real -> string) returns (s: string)
    ensures s == "[" + Join(Formatted(vec, format), ", ") + "]"
    ensures |s| >= 2 && s[0] == '[' && s[|s| - 1] == ']'
    ensures vec == [] ==> s == "[]"
  {
    s := "[";
    ghost var parts := Formatted(vec, format);
    for i := 0 to |vec|
      invariant s == "[" + Join(parts[..i], ", ") + (if 0 < i < |vec| then ", " else "")
    {
      assert parts[..i + 1][..i] == parts[..i];
      s := s + format(vec[i]);
      if i < |vec| - 1 {
        s := s + ", ";
      }
    }
    assert parts[..|vec|] == parts;
    s := s + "]";
  }

  /** Number of occurrences of `c` in `s`. */
  function Occurrences(s: string, c: char): nat {
    if s == [] then 0 else (if s[0] == c then 1 else 0) + Occurrences(s[1..], c)
  }

  lemma {:induction false} OccurrencesAppend(a: string, b: string, c: char)
    ensures Occurrences(a + b, c) == Occurrences(a, c) + Occurrences(b, c)
  {
    if a == [] {
      assert a + b == b;
    } else {
      assert (a + b)[1..] == a[1..] + b;
      OccurrencesAppend(a[1..], b, c);
    }
  }

  lemma {:induction false} OccurrencesAbsent(s: string, c: char)
    requires c !in s
    ensures Occurrences(s, c) == 0
  {
    if s != [] { OccurrencesAbsent(s[1..], c); }
  }

  /**
   * When no formatted element contains a comma, the joined text holds
   * exactly n - 1 commas: one per ", " separator.
   */
  lemma {:induction false} JoinSeparatorCount(parts: seq<string>)
    requires parts != []
    requires forall i :: 0 <= i < |parts| ==> ',' !in parts[i]
    ensures Occurrences(Join(parts, ", "), ',') == |parts| - 1
  {
    var last := parts[|parts| - 1];
    OccurrencesAbsent(last, ',');
    if |parts| > 1 {
      var init := parts[..|parts| - 1];
      JoinSeparatorCount(init);
      OccurrencesAppend(Join(init, ", ") + ", ", last, ',');
      OccurrencesAppend(Join(init, ", "), ", ", ',');
    }
  }

  /**
   * `split(s, ", ")` recovers the parts of `Join(parts, ", ")` when each part
   * is non-empty and contains neither a comma nor a space: the library's two
   * string helpers are inverse on such text.
   */
  lemma {:induction false} SplitJoinRoundTrip(parts: seq<string>)
    requires forall i :: 0 <= i < |parts| ==> parts[i] != [] && DelimiterFree(parts[i], ", ")
    ensures Tokens(Join(parts, ", "), ", ") == parts
  {
    if parts == [] {
    } else if |parts| == 1 {
      TokensOfWord(parts[0], ", ");
    } else {
      var init, last := parts[..|parts| - 1], parts[|parts| - 1];
      SplitJoinRoundTrip(init);
      assert Join(parts, ", ") == Join(init, ", ") + [','] + ([' '] + last);
      TokensSplitAt(Join(init, ", "), ',', [' '] + last, ", ");
      assert ([' '] + last)[1..] == last;
      TokensOfWord(last, ", ");
      assert init + [last] == parts;
    }
  }

  // ---------------------------------------------------------------------
  // vectorToArray
  // ---------------------------------------------------------------------

  /** `vectorToArray`: a freshly allocated array holding the elements of `vec` in order. */
  method VectorToArray(vec: seq<real>) returns (a: array<real>)
    ensures fresh(a)
    ensures a.Length == |vec| && a[..] == vec
  {
    a := new real[|vec|];
    for i := 0 to |vec|
      invariant forall k :: 0 <= k < i ==> a[k] == vec[k]
    {
      a[i] := vec[i];
    }
  }
}
