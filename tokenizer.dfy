/** The whitespace splitter the server applies to every input line.

    The server calls Apache Commons Lang's StringUtils.split with a null separator, once
    without a limit (the command words) and once with a limit of 3 (the SEND fields). This
    module is this model's own definition of that behaviour, an assumption about the
    library rather than a copy of it: runs of whitespace separate tokens, leading and
    trailing whitespace produce no empty token, and with a positive limit the last field is
    the rest of the line from the first character of that field onwards. */
module Tokenizer {

  /** Java's Character.isWhitespace: the ASCII controls TAB, LF, VT, FF, CR, the four
      information separators, and the Unicode space, line and paragraph separators other
      than the three no-break spaces. */
  predicate IsWhitespace(c: char) {
    c == ' ' || ('\t' <= c <= '\r') || ('\U{1C}' <= c <= '\U{1F}')
    || c == '\U{1680}' || ('\U{2000}' <= c <= '\U{2006}') || ('\U{2008}' <= c <= '\U{200A}')
    || c == '\U{2028}' || c == '\U{2029}' || c == '\U{205F}' || c == '\U{3000}'
  }

  /** A token: a non-empty run of non-whitespace characters. */
  predicate IsToken(w: string) {
    w != [] && forall i :: 0 <= i < |w| ==> !IsWhitespace(w[i])
  }

  /** A field of a capped split: non-empty and starting with a non-whitespace character. */
  predicate IsField(f: string) {
    f != [] && !IsWhitespace(f[0])
  }

  /** s with its leading whitespace removed. */
  function SkipWhitespace(s: string): (t: string)
    ensures |t| <= |s|
    ensures forall i :: 0 <= i < |s| - |t| ==> IsWhitespace(s[i])
    ensures t == [] || !IsWhitespace(t[0])
  {
    if s != [] && IsWhitespace(s[0]) then SkipWhitespace(s[1..]) else s
  }

  /** What SkipWhitespace drops is a prefix: the result is a suffix of its argument. */
  lemma {:induction false} SkipWhitespaceSuffix(s: string)
    ensures SkipWhitespace(s) == s[|s| - |SkipWhitespace(s)|..]
  {
    if s != [] && IsWhitespace(s[0]) {
      SkipWhitespaceSuffix(s[1..]);
    }
  }

  /** Length of the leading run of non-whitespace characters of s. */
  function TokenEnd(s: string): (n: nat)
    ensures n <= |s|
    ensures forall i :: 0 <= i < n ==> !IsWhitespace(s[i])
    ensures n == |s| || IsWhitespace(s[n])
  {
    if s == [] || IsWhitespace(s[0]) then 0 else 1 + TokenEnd(s[1..])
  }

  /** The split with an optional limit: max <= 0 means no limit, a positive max caps the
      number of fields, and the last field of a capped split is the remainder of the line
      from its first non-whitespace character, trailing whitespace included. */
  function SplitWorker(s: string, max: int): (fields: seq<string>)
    ensures max > 0 ==> |fields| <= max
    ensures forall i :: 0 <= i < |fields| ==> IsField(fields[i])
    ensures forall i :: 0 <= i < |fields| - 1 ==> IsToken(fields[i])
    ensures max <= 0 || |fields| < max ==> fields == [] || IsToken(fields[|fields| - 1])
    decreases |s|
  {
    var t := SkipWhitespace(s);
    if t == [] then []
    else if max == 1 then [t]
    else
      var n := TokenEnd(t);
      assert n > 0 && IsToken(t[..n]) && IsField(t[..n]);
      var rest := SplitWorker(t[n..], if max <= 0 then max else max - 1);
      var fields := [t[..n]] + rest;
      fields
  }

  /** The unlimited split: the whitespace-separated words of s. */
  function Split(s: string): (words: seq<string>)
    ensures forall i :: 0 <= i < |words| ==> IsToken(words[i])
  {
    SplitWorker(s, -1)
  }

  /** The words of ws separated by single spaces. */
  function JoinWords(ws: seq<string>): string {
    if ws == [] then []
    else if |ws| == 1 then ws[0]
    else ws[0] + " " + JoinWords(ws[1..])
  }

  /** Splitting only looks at s from its first non-whitespace character on. */
  lemma SplitFromFirstToken(s: string, max: int)
    ensures SplitWorker(SkipWhitespace(s), max) == SplitWorker(s, max)
  {
    var t := SkipWhitespace(s);
    assert SkipWhitespace(t) == t;
  }

  /** A token followed by a whitespace character and anything else splits into that token
      and the split of the rest. */
  lemma {:induction false} SplitToken(w: string, c: char, rest: string, max: int)
    requires IsToken(w) && IsWhitespace(c) && max != 1
    ensures SplitWorker(w + [c] + rest, max)
         == [w] + SplitWorker([c] + rest, if max <= 0 then max else max - 1)
  {
    var s := w + [c] + rest;
    assert SkipWhitespace(s) == s;
    TokenEndOfToken(w, [c] + rest);
    assert s == w + ([c] + rest);
    assert s[..|w|] == w && s[|w|..] == [c] + rest;
  }

  lemma {:induction false} TokenEndOfToken(w: string, rest: string)
    requires IsToken(w) && (rest == [] || IsWhitespace(rest[0]))
    ensures TokenEnd(w + rest) == |w|
  {
    if |w| > 1 {
      assert IsToken(w[1..]);
      assert (w + rest)[1..] == w[1..] + rest;
      TokenEndOfToken(w[1..], rest);
    } else {
      assert (w + rest)[1..] == rest;
    }
  }

  /** Round trip: joining tokens with single spaces and splitting gives the tokens back. */
  lemma {:induction false} SplitJoinWords(ws: seq<string>)
    requires forall i :: 0 <= i < |ws| ==> IsToken(ws[i])
    ensures Split(JoinWords(ws)) == ws
  {
    if |ws| == 1 {
      SplitOneWord(ws[0]);
    } else if |ws| > 1 {
      var rest := JoinWords(ws[1..]);
      SplitJoinWords(ws[1..]);
      SplitWordThenRest(ws[0], rest);
    }
  }

  lemma SplitOneWord(w: string)
    requires IsToken(w)
    ensures Split(w) == [w]
  {
    assert SkipWhitespace(w) == w;
    TokenEndOfToken(w, []);
    assert w + [] == w;
    assert w[..|w|] == w && w[|w|..] == [];
    assert SplitWorker([], -1) == [];
    SplitUnfold(w, -1);
  }

  lemma SplitWordThenRest(w: string, rest: string)
    requires IsToken(w)
    ensures Split(w + " " + rest) == [w] + Split(rest)
  {
    assert w + " " + rest == w + [' '] + rest;
    SplitToken(w, ' ', rest, -1);
    assert SkipWhitespace([' '] + rest) == SkipWhitespace(rest);
    SplitFromFirstToken([' '] + rest, -1);
    SplitFromFirstToken(rest, -1);
  }

  /** How the capped split relates to the unlimited one: with a limit max >= 1 the field
      count is the smaller of max and the word count, every field but the last is the
      corresponding word, and when the words fit under the limit the fields are exactly
      the words. */
  lemma {:induction false} SplitLimitedFields(s: string, max: int)
    requires max >= 1
    ensures var f, w := SplitWorker(s, max), Split(s);
      && |f| == (if |w| < max then |w| else max)
      && (forall i :: 0 <= i < |f| - 1 ==> f[i] == w[i])
      && (|w| < max ==> f == w)
    decreases |s|, 1
  {
    var t := SkipWhitespace(s);
    if t == [] {
      SplitUnfold(s, max);
      SplitUnfold(s, -1);
    } else if max == 1 {
      assert SplitWorker(s, 1) == [t];
      assert |Split(s)| >= 1 by { SplitUnfold(s, -1); }
    } else {
      SplitLaterFields(s, max);
    }
  }

  lemma {:induction false} SplitLaterFields(s: string, max: int)
    requires max > 1 && SkipWhitespace(s) != []
    ensures var f, w := SplitWorker(s, max), Split(s);
      && |f| == (if |w| < max then |w| else max)
      && (forall i :: 0 <= i < |f| - 1 ==> f[i] == w[i])
      && (|w| < max ==> f == w)
    decreases |s|, 0
  {
    var t := SkipWhitespace(s);
    var n := TokenEnd(t);
    var rest := t[n..];
    SplitLimitedFields(rest, max - 1);
    assert SplitWorker(s, max) == [t[..n]] + SplitWorker(rest, max - 1) by { SplitUnfold(s, max); }
    assert Split(s) == [t[..n]] + Split(rest) by { SplitUnfold(s, -1); }
  }

  /** One step of the split: nothing when only whitespace is left, otherwise the leading
      token and the split of what follows it. */
  lemma SplitUnfold(s: string, max: int)
    ensures SkipWhitespace(s) == [] ==> SplitWorker(s, max) == []
    ensures SkipWhitespace(s) != [] && max != 1 ==>
      var t := SkipWhitespace(s);
      SplitWorker(s, max) == [t[..TokenEnd(t)]] + SplitWorker(t[TokenEnd(t)..], if max <= 0 then max else max - 1)
  {
  }

  /** a is a suffix of b. */
  predicate IsSuffix(a: string, b: string) {
    |a| <= |b| && a == b[|b| - |a|..]
  }

  lemma SuffixTransitive(a: string, b: string, c: string)
    requires IsSuffix(a, b) && IsSuffix(b, c)
    ensures IsSuffix(a, c)
  {
    assert b[|b| - |a|..] == c[|c| - |a|..];
  }

  /** When the line has at least max words, the last field of the capped split is a suffix
      of the line: the rest of the line from the start of word max - 1 on. */
  lemma {:induction false} SplitLimitedSuffix(s: string, max: int)
    requires max >= 1 && |Split(s)| >= max
    ensures |SplitWorker(s, max)| == max && IsSuffix(SplitWorker(s, max)[max - 1], s)
    decreases |s|, 1
  {
    if max == 1 {
      SplitWholeSuffix(s);
    } else {
      SplitLaterSuffix(s, max);
    }
  }

  /** With a limit of one, the only field is the line without its leading whitespace. */
  lemma SplitWholeSuffix(s: string)
    requires |Split(s)| >= 1
    ensures |SplitWorker(s, 1)| == 1 && IsSuffix(SplitWorker(s, 1)[0], s)
  {
    var t := SkipWhitespace(s);
    assert IsSuffix(t, s) by { SkipWhitespaceSuffix(s); }
    assert t != [] by { SplitUnfold(s, -1); }
    assert SplitWorker(s, 1) == [t];
  }

  /** With a limit above one, the last field is the last field of the rest of the line after
      its first token, split with a limit one lower. */
  lemma {:induction false} SplitLaterSuffix(s: string, max: int)
    requires max > 1 && |Split(s)| >= max
    ensures |SplitWorker(s, max)| == max && IsSuffix(SplitWorker(s, max)[max - 1], s)
    decreases |s|, 0
  {
    var t := SkipWhitespace(s);
    assert IsSuffix(t, s) by { SkipWhitespaceSuffix(s); }
    assert t != [] by { SplitUnfold(s, -1); }
    var n := TokenEnd(t);
    var rest := t[n..];
    assert |Split(rest)| >= max - 1 by { SplitUnfold(s, -1); }
    SplitLimitedSuffix(rest, max - 1);
    var last := SplitWorker(rest, max - 1)[max - 2];
    assert SplitWorker(s, max) == [t[..n]] + SplitWorker(rest, max - 1) by { SplitUnfold(s, max); }
    assert IsSuffix(rest, t);
    SuffixTransitive(rest, t, s);
    SuffixTransitive(last, rest, s);
  }

  /** ... and the words of that last field are exactly the words of the line from position
      max - 1 on. */
  lemma {:induction false} SplitLimitedRest(s: string, max: int)
    requires max >= 1 && |Split(s)| >= max
    ensures |SplitWorker(s, max)| == max
    ensures Split(SplitWorker(s, max)[max - 1]) == Split(s)[max - 1..]
    decreases |s|, 1
  {
    if max == 1 {
      SplitWholeRest(s);
    } else {
      SplitLaterRest(s, max);
    }
  }

  lemma SplitWholeRest(s: string)
    requires |Split(s)| >= 1
    ensures |SplitWorker(s, 1)| == 1 && Split(SplitWorker(s, 1)[0]) == Split(s)
  {
    var t := SkipWhitespace(s);
    assert t != [] by { SplitUnfold(s, -1); }
    assert SplitWorker(s, 1) == [t];
    SplitFromFirstToken(s, -1);
  }

  lemma {:induction false} SplitLaterRest(s: string, max: int)
    requires max > 1 && |Split(s)| >= max
    ensures |SplitWorker(s, max)| == max
    ensures Split(SplitWorker(s, max)[max - 1]) == Split(s)[max - 1..]
    decreases |s|, 0
  {
    var t := SkipWhitespace(s);
    assert t != [] by { SplitUnfold(s, -1); }
    var n := TokenEnd(t);
    var rest := t[n..];
    assert Split(s) == [t[..n]] + Split(rest) by { SplitUnfold(s, -1); }
    SplitLimitedRest(rest, max - 1);
    assert SplitWorker(s, max) == [t[..n]] + SplitWorker(rest, max - 1) by { SplitUnfold(s, max); }
    assert Split(s)[max - 1..] == Split(rest)[max - 2..];
  }
}
