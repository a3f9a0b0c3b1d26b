/** The PHP string built-ins the routing code relies on, over `string` with one char per byte:
    explode, implode, the truthiness test that array_filter applies, ucfirst, ucwords,
    strtolower, str_replace of one character, strrpos, substr and ctype_alnum. */
module PhpStrings {
  import opened Wrappers

  /** PHP truthiness of a string: only "" and "0" are false. */
  predicate Truthy(s: string) {
    s != "" && s != "0"
  }

  /** `$s[0] === c`. Reading offset 0 of an empty string yields "" (and a warning),
      which is never identical to a one-character string. */
  predicate StartsWith(s: string, c: char) {
    |s| > 0 && s[0] == c
  }

  /** explode(sep, s): the pieces between separators, in order; always at least one. */
  function Split(s: string, sep: char): (parts: seq<string>)
    ensures |parts| >= 1
    ensures |parts| == 1 <==> sep !in s
    ensures forall i :: 0 <= i < |parts| ==> sep !in parts[i]
    decreases |s|
  {
    if s == [] then [""]
    else
      var rest := Split(s[1..], sep);
      assert s == [s[0]] + s[1..];
      if s[0] == sep then [""] + rest
      else [[s[0]] + rest[0]] + rest[1..]
  }

  /** implode(sep, parts). */
  function Join(parts: seq<string>, sep: char): string
  {
    if |parts| == 0 then ""
    else if |parts| == 1 then parts[0]
    else parts[0] + [sep] + Join(parts[1..], sep)
  }

  /** Gluing the pieces back together gives the original string. */
  lemma {:induction false} JoinSplit(s: string, sep: char)
    ensures Join(Split(s, sep), sep) == s
  {
    if s != [] {
      JoinSplit(s[1..], sep);
      var rest := Split(s[1..], sep);
      if s[0] == sep {
        assert ([""] + rest)[1..] == rest;
      } else if |rest| > 1 {
        var parts := [[s[0]] + rest[0]] + rest[1..];
        assert parts[1..] == rest[1..];
        assert Join(rest, sep) == rest[0] + [sep] + Join(rest[1..], sep);
      }
    }
  }

  /** explode of a string without separator is that string alone. */
  lemma SplitWithoutSeparator(s: string, sep: char)
    requires sep !in s
    ensures Split(s, sep) == [s]
  {
    JoinSplit(s, sep);
  }

  /** One step of explode: the first character either ends the first piece or joins it. */
  lemma SplitStep(s: string, sep: char)
    requires s != []
    ensures var rest := Split(s[1..], sep);
      Split(s, sep) == if s[0] == sep then [""] + rest else [[s[0]] + rest[0]] + rest[1..]
  {
  }

  /** A separator-free piece followed by a separator: explode gives that piece, then the
      pieces of the rest. */
  lemma {:induction false} SplitAfterPiece(a: string, b: string, sep: char)
    requires sep !in a
    ensures Split(a + [sep] + b, sep) == [a] + Split(b, sep)
  {
    var s := a + [sep] + b;
    assert s[1..] == if a == [] then b else a[1..] + [sep] + b;
    SplitStep(s, sep);
    if a != [] {
      SplitAfterPiece(a[1..], b, sep);
      assert [a[0]] + a[1..] == a;
    }
  }

  /** explode inverts implode when no piece contains the separator. */
  lemma {:induction false} SplitJoin(parts: seq<string>, sep: char)
    requires |parts| >= 1
    requires forall i :: 0 <= i < |parts| ==> sep !in parts[i]
    ensures Split(Join(parts, sep), sep) == parts
  {
    if |parts| == 1 {
      SplitWithoutSeparator(parts[0], sep);
    } else {
      SplitJoin(parts[1..], sep);
      SplitAfterPiece(parts[0], Join(parts[1..], sep), sep);
      SplitWithoutSeparator(parts[0], sep);
      assert [parts[0]] + parts[1..] == parts;
    }
  }

  /** The text before the first separator, or the whole string: `strstr(s, sep, true) ?: s`,
      and the first element of `explode(sep, s, 2)`. */
  function FirstPiece(s: string, sep: char): string {
    Split(s, sep)[0]
  }

  /** The first piece holds no separator and is either everything or a prefix ended by one. */
  lemma FirstPieceIsPrefix(s: string, sep: char)
    ensures sep !in FirstPiece(s, sep)
    ensures FirstPiece(s, sep) == s || FirstPiece(s, sep) + [sep] <= s
  {
    var parts := Split(s, sep);
    JoinSplit(s, sep);
    if |parts| > 1 {
      assert s == parts[0] + [sep] + Join(parts[1..], sep);
      assert (parts[0] + [sep]) + Join(parts[1..], sep) == s;
    }
  }

  /** Conversely, a separator-free prefix ended by a separator (or the whole string) is the first piece. */
  lemma FirstPieceOfPrefix(s: string, a: string, sep: char)
    requires sep !in a
    requires s == a || a + [sep] <= s
    ensures FirstPiece(s, sep) == a
  {
    SplitWithoutSeparator(a, sep);
    if s != a {
      var b := s[|a| + 1..];
      assert s == a + [sep] + b;
      SplitAfterPiece(a, b, sep);
    }
  }

  /** array_filter with the default truthiness test, followed by array_values. */
  function FilterTruthy(parts: seq<string>): (kept: seq<string>)
    ensures forall p :: p in kept <==> p in parts && Truthy(p)
  {
    if parts == [] then []
    else (if Truthy(parts[0]) then [parts[0]] else []) + FilterTruthy(parts[1..])
  }

  /** Filtering keeps the original order: it distributes over concatenation. */
  lemma {:induction false} FilterTruthyAppend(a: seq<string>, b: seq<string>)
    ensures FilterTruthy(a + b) == FilterTruthy(a) + FilterTruthy(b)
  {
    if a != [] {
      FilterTruthyAppend(a[1..], b);
      assert (a + b)[0] == a[0];
      assert (a + b)[1..] == a[1..] + b;
    } else {
      assert a + b == b;
    }
  }

  /** Filtering keeps a sequence of truthy strings as it is. */
  lemma {:induction false} FilterTruthyKeepsTruthy(parts: seq<string>)
    requires forall i :: 0 <= i < |parts| ==> Truthy(parts[i])
    ensures FilterTruthy(parts) == parts
  {
    if parts != [] {
      FilterTruthyKeepsTruthy(parts[1..]);
      assert [parts[0]] + parts[1..] == parts;
    }
  }

  /** Filtering drops a falsy head. */
  lemma FilterTruthySkipsFalsy(p: string, parts: seq<string>)
    requires !Truthy(p)
    ensures FilterTruthy([p] + parts) == FilterTruthy(parts)
  {
  }

  /** Upper-casing of one character as ucfirst and ucwords do it: ASCII letters only. */
  function UpperChar(c: char): char {
    if 'a' <= c <= 'z' then (c as int - 32) as char else c
  }

  /** strtolower of one character: ASCII letters only. */
  function LowerChar(c: char): char {
    if 'A' <= c <= 'Z' then (c as int + 32) as char else c
  }

  /** strtolower. */
  function ToLower(s: string): string {
    seq(|s|, i requires 0 <= i < |s| => LowerChar(s[i]))
  }

  /** ucfirst. */
  function Ucfirst(s: string): string {
    if s == [] then s else [UpperChar(s[0])] + s[1..]
  }

  /** The characters after which ucwords starts a new word by default: " \t\r\n\f\v". */
  predicate IsWordDelimiter(c: char) {
    c == ' ' || c == '\t' || c == '\r' || c == '\n' || c as int == 11 || c as int == 12
  }

  /** ucwords over `s`, where `capitalise` says whether the previous character ended a word. */
  function UcwordsFrom(s: string, capitalise: bool): string
    decreases |s|
  {
    if s == [] then []
    else [if capitalise then UpperChar(s[0]) else s[0]] + UcwordsFrom(s[1..], IsWordDelimiter(s[0]))
  }

  /** ucwords. */
  function Ucwords(s: string): string {
    UcwordsFrom(s, true)
  }

  /** str_replace of one character by another. */
  function Replace(s: string, from: char, to: char): string {
    seq(|s|, i requires 0 <= i < |s| => if s[i] == from then to else s[i])
  }

  /** str_replace of one character by the empty string. */
  function RemoveChar(s: string, c: char): string {
    if s == [] then [] else (if s[0] == c then [] else [s[0]]) + RemoveChar(s[1..], c)
  }

  /** strrpos: the position of the last occurrence of `c`, or None for FALSE. */
  function LastIndexOf(s: string, c: char): (r: Option<nat>)
    ensures r.None? <==> c !in s
    ensures r.Some? ==> r.value < |s| && s[r.value] == c && c !in s[r.value + 1..]
  {
    if s == [] then None
    else if s[|s| - 1] == c then Some(|s| - 1)
    else
      assert s == s[..|s| - 1] + [s[|s| - 1]];
      LastIndexOf(s[..|s| - 1], c)
  }

  /** A character that occurs exactly once is found where it is. */
  lemma LastIndexOfOnly(s: string, c: char, k: nat)
    requires k < |s| && s[k] == c
    requires forall j :: 0 <= j < |s| && j != k ==> s[j] != c
    ensures LastIndexOf(s, c) == Some(k)
  {
  }

  /** substr(s, 0, n): clamped at the end of the string. */
  function Prefix(s: string, n: nat): string {
    if n <= |s| then s[..n] else s
  }

  /** substr(s, n): past the end this is "" (FALSE before PHP 8, which every caller here turns into ""). */
  function Suffix(s: string, n: nat): string {
    if n <= |s| then s[n..] else ""
  }

  predicate IsAlnumChar(c: char) {
    'a' <= c <= 'z' || 'A' <= c <= 'Z' || '0' <= c <= '9'
  }

  /** ctype_alnum: non-empty and made of ASCII letters and digits only. */
  predicate IsAlnum(s: string) {
    |s| > 0 && forall i :: 0 <= i < |s| ==> IsAlnumChar(s[i])
  }
  /** No character of `w` starts a new word for ucwords. */
  predicate NoWordDelimiter(w: string) {
    forall i :: 0 <= i < |w| ==> !IsWordDelimiter(w[i])
  }

  /** Within a single word ucwords only touches the first character, and only when told to. */
  lemma {:induction false} UcwordsOfWord(w: string, capitalise: bool)
    requires NoWordDelimiter(w)
    ensures UcwordsFrom(w, capitalise) == if capitalise then Ucfirst(w) else w
  {
    if w != [] {
      UcwordsOfWord(w[1..], false);
      assert [w[0]] + w[1..] == w;
    }
  }

  /** Whether ucwords, having read `a` starting in state `capitalise`, starts a word next. */
  function UcwordsFlagAfter(a: string, capitalise: bool): bool
    decreases |a|
  {
    if a == [] then capitalise else UcwordsFlagAfter(a[1..], IsWordDelimiter(a[0]))
  }

  /** A word is due after `a` exactly when `a` ends with a delimiter (or is empty and one was due). */
  lemma {:induction false} UcwordsFlagAfterLast(a: string, capitalise: bool)
    ensures UcwordsFlagAfter(a, capitalise) == if a == [] then capitalise else IsWordDelimiter(a[|a| - 1])
    decreases |a|
  {
    if a != [] {
      UcwordsFlagAfterLast(a[1..], IsWordDelimiter(a[0]));
      if |a| > 1 {
        assert a[1..][|a[1..]| - 1] == a[|a| - 1];
      }
    }
  }

  /** ucwords works piecewise: the second part continues in the state the first part left. */
  lemma {:induction false} UcwordsAppend(a: string, b: string, capitalise: bool)
    ensures UcwordsFrom(a + b, capitalise) == UcwordsFrom(a, capitalise) + UcwordsFrom(b, UcwordsFlagAfter(a, capitalise))
    decreases |a|
  {
    if a == [] {
      assert a + b == b;
    } else {
      var next := IsWordDelimiter(a[0]);
      var first := if capitalise then UpperChar(a[0]) else a[0];
      UcwordsAppend(a[1..], b, next);
      assert UcwordsFrom(a + b, capitalise) == [first] + UcwordsFrom(a[1..] + b, next) by {
        UcwordsStep(a + b, capitalise);
        assert (a + b)[0] == a[0] && (a + b)[1..] == a[1..] + b;
      }
      UcwordsStep(a, capitalise);
    }
  }

  /** One step of ucwords. */
  lemma UcwordsStep(s: string, capitalise: bool)
    requires s != []
    ensures UcwordsFrom(s, capitalise)
         == [if capitalise then UpperChar(s[0]) else s[0]] + UcwordsFrom(s[1..], IsWordDelimiter(s[0]))
  {
  }

  /** ucwords character by character: a character is upper-cased exactly when it starts the
      string (and a word is due) or follows a delimiter; nothing else changes. */
  lemma {:induction false} UcwordsCharwise(s: string, capitalise: bool)
    ensures |UcwordsFrom(s, capitalise)| == |s|
    ensures forall i :: 0 <= i < |s| ==>
      UcwordsFrom(s, capitalise)[i]
        == if (if i == 0 then capitalise else IsWordDelimiter(s[i - 1])) then UpperChar(s[i]) else s[i]
    decreases |s|
  {
    if s != [] {
      var rest := UcwordsFrom(s[1..], IsWordDelimiter(s[0]));
      UcwordsCharwise(s[1..], IsWordDelimiter(s[0]));
      UcwordsStep(s, capitalise);
      forall i | 1 <= i < |s|
        ensures UcwordsFrom(s, capitalise)[i] == if IsWordDelimiter(s[i - 1]) then UpperChar(s[i]) else s[i]
      {
        assert UcwordsFrom(s, capitalise)[i] == rest[i - 1];
        assert s[1..][i - 1] == s[i];
        if i > 1 {
          assert s[1..][i - 2] == s[i - 1];
        }
      }
    }
  }

  /** ucfirst keeps the length, and a character that is no ASCII letter occurs in the result
      exactly when it occurs in the input. */
  lemma UcfirstKeepsNonLetters(w: string, c: char)
    requires !('a' <= c <= 'z') && !('A' <= c <= 'Z')
    ensures |Ucfirst(w)| == |w|
    ensures c in Ucfirst(w) <==> c in w
  {
  }

  /** ucfirst is idempotent. */
  lemma UcfirstIdempotent(w: string)
    ensures Ucfirst(Ucfirst(w)) == Ucfirst(w)
  {
  }

  /** ucfirst does not create word delimiters. */
  lemma UcfirstKeepsWordDelimiters(w: string)
    requires NoWordDelimiter(w)
    ensures NoWordDelimiter(Ucfirst(w))
  {
  }
}
