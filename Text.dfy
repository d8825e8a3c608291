/** The string operations the bot uses, with the JavaScript semantics it relies on:
    `toLowerCase` (restricted to ASCII), `startsWith`, `split` on a single
    separator character, `join`, `trim`, and splitting into whitespace-delimited
    tokens (what `\S+` and `\s+` in a regular expression see). */
module Text {

  /** The whitespace characters of `\s` and `trim`, restricted to ASCII. */
  predicate IsSpace(c: char) {
    c == ' ' || c == '\t' || c == '\n' || c == '\r' || c == '\U{B}' || c == '\U{C}'
  }

  predicate IsUpper(c: char) {
    'A' <= c <= 'Z'
  }

  /** ASCII lower-casing of one character. */
  function LowerChar(c: char): (d: char)
    ensures !IsUpper(d)
    ensures IsUpper(c) || d == c
    ensures IsUpper(c) ==> d as int == c as int + 32
  {
    if IsUpper(c) then (c as int + 32) as char else c
  }

  /** `s.toLowerCase()` on ASCII text: every character lowered, in place. */
  function ToLower(s: string): (r: string)
    ensures |r| == |s|
    ensures forall i :: 0 <= i < |s| ==> r[i] == LowerChar(s[i])
  {
    if s == [] then [] else [LowerChar(s[0])] + ToLower(s[1..])
  }

  /** A text without upper-case letters is its own lower-cased form. */
  lemma {:induction false} ToLowerOfLowerCase(s: string)
    requires forall i :: 0 <= i < |s| ==> !IsUpper(s[i])
    ensures ToLower(s) == s
  {
    assert forall i :: 0 <= i < |s| ==> ToLower(s)[i] == s[i];
  }

  /** Lower-casing is idempotent: a lower-cased name is its own key. */
  lemma ToLowerIdempotent(s: string)
    ensures ToLower(ToLower(s)) == ToLower(s)
  {
    var t := ToLower(s);
    assert forall i :: 0 <= i < |t| ==> LowerChar(t[i]) == t[i];
  }

  /** `s.startsWith(prefix)`. */
  predicate StartsWith(s: string, prefix: string)
    ensures StartsWith(s, prefix) ==> |prefix| <= |s| && s == prefix + s[|prefix|..]
  {
    |prefix| <= |s| && s[..|prefix|] == prefix
  }

  /** `s.split(sep)` for a one-character separator: the text between consecutive
      separators, including empty fields, so there is always one more field than
      there are separators. */
  function Split(s: string, sep: char): (fields: seq<string>)
    ensures |fields| > 0
    ensures forall i :: 0 <= i < |fields| ==> sep !in fields[i]
    decreases |s|
  {
    if s == [] then [""]
    else
      var rest := Split(s[1..], sep);
      assert s == [s[0]] + s[1..];
      if s[0] == sep then [""] + rest
      else [[s[0]] + rest[0]] + rest[1..]
  }

  /** There is one more field than there are separators. */
  lemma {:induction false} SplitCountsSeparators(s: string, sep: char)
    ensures |Split(s, sep)| == multiset(s)[sep] + 1
    decreases |s|
  {
    if s != [] {
      SplitCountsSeparators(s[1..], sep);
      assert s == [s[0]] + s[1..];
    }
  }

  /** `parts.join(sep)` for a one-character separator. */
  function Join(parts: seq<string>, sep: char): (joined: string)
    ensures parts != [] ==> StartsWith(joined, parts[0])
  {
    if |parts| == 0 then ""
    else if |parts| == 1 then parts[0]
    else parts[0] + [sep] + Join(parts[1..], sep)
  }

  /** Joining the fields of a split gives back the original text. */
  lemma {:induction false} JoinSplit(s: string, sep: char)
    ensures Join(Split(s, sep), sep) == s
    decreases |s|
  {
    if s != [] {
      var rest := Split(s[1..], sep);
      JoinSplit(s[1..], sep);
      if s[0] == sep {
        assert Split(s, sep) == [""] + rest;
        assert ([""] + rest)[1..] == rest;
      } else {
        var fields := Split(s, sep);
        assert fields == [[s[0]] + rest[0]] + rest[1..];
        if |rest| == 1 {
          assert Join(fields, sep) == [s[0]] + rest[0];
        } else {
          assert fields[1..] == rest[1..];
          assert Join(rest, sep) == rest[0] + [sep] + Join(rest[1..], sep);
          assert Join(fields, sep) == ([s[0]] + rest[0]) + [sep] + Join(rest[1..], sep);
        }
      }
    }
  }

  /** Text without the separator is a single field. */
  lemma {:induction false} SplitWithoutSeparator(s: string, sep: char)
    requires sep !in s
    ensures Split(s, sep) == [s]
    decreases |s|
  {
    if s != [] {
      SplitWithoutSeparator(s[1..], sep);
      assert [s[0]] + s[1..] == s;
    }
  }

  /** A field followed by the separator splits off as the first field. */
  lemma {:induction false} SplitAfterField(field: string, sep: char, rest: string)
    requires sep !in field
    ensures Split(field + [sep] + rest, sep) == [field] + Split(rest, sep)
    decreases |field|
  {
    var s := field + [sep] + rest;
    if field == [] {
      assert s == [sep] + rest;
      assert s[1..] == rest;
    } else {
      assert s[1..] == field[1..] + [sep] + rest;
      SplitAfterField(field[1..], sep, rest);
      assert [field[0]] + field[1..] == field;
    }
  }

  /** A field that ends the text or is followed by the separator is the first field. */
  lemma SplitFirstField(field: string, sep: char, rest: string)
    requires sep !in field
    requires rest == [] || rest[0] == sep
    ensures Split(field + rest, sep)[0] == field
  {
    if rest == [] {
      assert field + rest == field;
      SplitWithoutSeparator(field, sep);
    } else {
      assert field + rest == field + [sep] + rest[1..];
      SplitAfterField(field, sep, rest[1..]);
    }
  }

  /** Splitting a join of separator-free fields gives back those fields. */
  lemma {:induction false} SplitJoin(parts: seq<string>, sep: char)
    requires |parts| > 0
    requires forall i :: 0 <= i < |parts| ==> sep !in parts[i]
    ensures Split(Join(parts, sep), sep) == parts
  {
    if |parts| == 1 {
      SplitWithoutSeparator(parts[0], sep);
    } else {
      SplitJoin(parts[1..], sep);
      SplitAfterField(parts[0], sep, Join(parts[1..], sep));
      assert [parts[0]] + parts[1..] == parts;
    }
  }

  /** The text with leading whitespace removed. */
  function TrimStart(s: string): (r: string)
    ensures r == [] || !IsSpace(r[0])
    ensures |r| <= |s| && r == s[|s| - |r|..]
    ensures forall i :: 0 <= i < |s| - |r| ==> IsSpace(s[i])
  {
    if s != [] && IsSpace(s[0]) then TrimStart(s[1..]) else s
  }

  /** The text with trailing whitespace removed. */
  function TrimEnd(s: string): (r: string)
    ensures r == [] || !IsSpace(r[|r| - 1])
    ensures |r| <= |s| && r == s[..|r|]
    ensures forall i :: |r| <= i < |s| ==> IsSpace(s[i])
  {
    if s != [] && IsSpace(s[|s| - 1]) then TrimEnd(s[..|s| - 1]) else s
  }

  /** `s.trim()`: a stretch of `s` that neither starts nor ends with
      whitespace, with only whitespace cut off before and after it. */
  function Trim(s: string): (r: string)
    ensures r == [] || (!IsSpace(r[0]) && !IsSpace(r[|r| - 1]))
    ensures IsTrimmedStretch(s, r)
  {
    TrimEndOfTrimStart(s);
    TrimEnd(TrimStart(s))
  }

  /** `r` is `s` with some whitespace cut off at either end. */
  ghost predicate IsTrimmedStretch(s: string, r: string) {
    exists k :: (0 <= k <= |s| && r <= s[k..] &&
                 (forall i :: 0 <= i < k ==> IsSpace(s[i])) &&
                 (forall i :: k + |r| <= i < |s| ==> IsSpace(s[i])))
  }

  lemma TrimEndOfTrimStart(s: string)
    ensures IsTrimmedStretch(s, TrimEnd(TrimStart(s)))
  {
    var start := TrimStart(s);
    var r := TrimEnd(start);
    var k := |s| - |start|;
    assert start == s[k..];
    forall i | k + |r| <= i < |s|
      ensures IsSpace(s[i])
    {
      assert s[i] == start[i - k];
    }
    assert 0 <= k <= |s| && r <= s[k..];
  }

  /** The maximal runs of non-whitespace characters of `s`, in order: the
      strings `\S+` can match whole when flanked by `\s+` or the ends. */
  function Tokens(s: string): (tokens: seq<string>)
    ensures forall i :: 0 <= i < |tokens| ==> tokens[i] != []
    ensures s != [] && !IsSpace(s[0]) ==> |tokens| > 0 && tokens[0][0] == s[0]
    decreases |s|
  {
    if s == [] then []
    else if IsSpace(s[0]) then Tokens(s[1..])
    else
      var rest := Tokens(s[1..]);
      if |s| > 1 && !IsSpace(s[1]) then [[s[0]] + rest[0]] + rest[1..]
      else [[s[0]]] + rest
  }

  /** No token contains whitespace. */
  lemma {:induction false} TokensHaveNoSpace(s: string)
    ensures forall i, j :: 0 <= i < |Tokens(s)| && 0 <= j < |Tokens(s)[i]| ==> !IsSpace(Tokens(s)[i][j])
    decreases |s|
  {
    if s != [] {
      TokensHaveNoSpace(s[1..]);
    }
  }

  /** All characters of a sequence of strings, in order. */
  function Flatten(parts: seq<string>): string {
    if parts == [] then [] else parts[0] + Flatten(parts[1..])
  }

  /** The characters of `s` that are not whitespace, in order. */
  function NonSpace(s: string): string {
    if s == [] then [] else (if IsSpace(s[0]) then [] else [s[0]]) + NonSpace(s[1..])
  }

  /** Flattening a sequence with a first element. */
  lemma FlattenCons(x: string, xs: seq<string>)
    ensures Flatten([x] + xs) == x + Flatten(xs)
  {
    assert ([x] + xs)[1..] == xs;
  }

  /** Tokenising loses exactly the whitespace: the tokens, put back together,
      are the non-whitespace characters of the text in their original order. */
  lemma {:induction false} TokensKeepNonSpace(s: string)
    ensures Flatten(Tokens(s)) == NonSpace(s)
    decreases |s|
  {
    if s != [] {
      TokensKeepNonSpace(s[1..]);
      var rest := Tokens(s[1..]);
      if IsSpace(s[0]) {
        assert NonSpace(s) == [] + NonSpace(s[1..]);
      } else {
        assert NonSpace(s) == [s[0]] + Flatten(rest);
        if |s| > 1 && !IsSpace(s[1]) {
          assert rest == [rest[0]] + rest[1..];
          FlattenCons(rest[0], rest[1..]);
          FlattenCons([s[0]] + rest[0], rest[1..]);
          assert Tokens(s) == [[s[0]] + rest[0]] + rest[1..];
        } else {
          FlattenCons([s[0]], rest);
          assert Tokens(s) == [[s[0]]] + rest;
        }
      }
    }
  }

  /** Whitespace alone has no tokens. */
  lemma {:induction false} TokensOfSpace(w: string)
    requires forall i :: 0 <= i < |w| ==> IsSpace(w[i])
    ensures Tokens(w) == []
    decreases |w|
  {
    if w != [] {
      TokensOfSpace(w[1..]);
    }
  }

  /** Trailing whitespace does not change the tokens. */
  lemma {:induction false} TokensIgnoreTrailingSpace(s: string, w: string)
    requires forall i :: 0 <= i < |w| ==> IsSpace(w[i])
    ensures Tokens(s + w) == Tokens(s)
    decreases |s|
  {
    if s == [] {
      assert s + w == w;
      TokensOfSpace(w);
    } else {
      assert (s + w)[1..] == s[1..] + w;
      TokensIgnoreTrailingSpace(s[1..], w);
    }
  }

  /** Leading whitespace does not change the tokens. */
  lemma {:induction false} TokensIgnoreLeadingSpace(s: string)
    ensures Tokens(TrimStart(s)) == Tokens(s)
    decreases |s|
  {
    if s != [] && IsSpace(s[0]) {
      TokensIgnoreLeadingSpace(s[1..]);
    }
  }

  /** Removing trailing whitespace does not change the tokens. */
  lemma TokensIgnoreTrimEnd(t: string)
    ensures Tokens(TrimEnd(t)) == Tokens(t)
  {
    var r := TrimEnd(t);
    var w := t[|r|..];
    forall i | 0 <= i < |w|
      ensures IsSpace(w[i])
    {
      assert w[i] == t[|r| + i];
    }
    assert t == r + w;
    TokensIgnoreTrailingSpace(r, w);
  }

  /** Trimming does not change the tokens. */
  lemma TokensIgnoreTrim(s: string)
    ensures Tokens(Trim(s)) == Tokens(s)
  {
    TokensIgnoreLeadingSpace(s);
    TokensIgnoreTrimEnd(TrimStart(s));
  }

  /** A non-empty run of non-whitespace characters. */
  predicate IsWord(w: string) {
    w != [] && forall i :: 0 <= i < |w| ==> !IsSpace(w[i])
  }

  /** A word followed by whitespace, then more text, is one token before the
      tokens of that text. */
  lemma {:induction false} TokensAfterWord(w: string, c: char, rest: string)
    requires IsWord(w) && IsSpace(c)
    ensures Tokens(w + [c] + rest) == [w] + Tokens(rest)
    decreases |w|
  {
    var s := w + [c] + rest;
    assert s[1..] == w[1..] + [c] + rest;
    if |w| == 1 {
      assert s[1..] == [c] + rest;
      assert Tokens(s[1..]) == Tokens(rest);
      assert [s[0]] == w;
    } else {
      TokensAfterWord(w[1..], c, rest);
      assert [w[0]] + w[1..] == w;
    }
  }

  /** A single word is a single token. */
  lemma {:induction false} TokensOfWord(w: string)
    requires IsWord(w)
    ensures Tokens(w) == [w]
    decreases |w|
  {
    if |w| > 1 {
      TokensOfWord(w[1..]);
      assert !IsSpace(w[1]);
      assert Tokens(w) == [[w[0]] + w[1..]];
      assert [w[0]] + w[1..] == w;
    } else {
      assert w[1..] == [] && [w[0]] == w;
    }
  }

  /** Tokens are maximal: words joined by single spaces tokenise back into
      exactly those words, none merged and none split. */
  lemma {:induction false} TokensOfJoinedWords(words: seq<string>)
    requires forall i :: 0 <= i < |words| ==> IsWord(words[i])
    ensures Tokens(Join(words, ' ')) == words
  {
    if |words| == 1 {
      TokensOfWord(words[0]);
    } else if |words| > 1 {
      TokensOfJoinedWords(words[1..]);
      TokensAfterWord(words[0], ' ', Join(words[1..], ' '));
      assert [words[0]] + words[1..] == words;
    }
  }
}
