/**
 * The parts of Python's `str` that the evaluation script relies on:
 * `isspace`, `rstrip()`, `split(sep)` with a one-character separator,
 * `split()` without arguments, and decimal digit strings (`str(n)` for a
 * natural number and its inverse).
 */
module PyStr {

  /** Python's `str.isspace` on one character; `rstrip()` and `split()` use the same set. */
  predicate IsSpace(c: char)
  {
    || c == ' ' || c == '\t' || c == '\n' || c == '\r' || c == '\U{000B}' || c == '\U{000C}'
    || ('\U{001C}' <= c <= '\U{001F}')
    || c == '\U{0085}' || c == '\U{00A0}' || c == '\U{1680}'
    || ('\U{2000}' <= c <= '\U{200A}')
    || c == '\U{2028}' || c == '\U{2029}' || c == '\U{202F}' || c == '\U{205F}' || c == '\U{3000}'
  }

  predicate NoSpace(s: string)
  {
    forall i :: 0 <= i < |s| ==> !IsSpace(s[i])
  }

  predicate AllSpace(s: string)
  {
    forall i :: 0 <= i < |s| ==> IsSpace(s[i])
  }

  // ---------------------------------------------------------------------------
  // rstrip()

  /** `s.rstrip()`: `s` without its trailing whitespace. */
  function RStrip(s: string): (r: string)
    ensures |r| <= |s| && r == s[..|r|]
    ensures r == [] || !IsSpace(r[|r| - 1])
    ensures forall i :: |r| <= i < |s| ==> IsSpace(s[i])
  {
    if s != [] && IsSpace(s[|s| - 1]) then RStrip(s[..|s| - 1]) else s
  }

  /** Trailing whitespace added to a line does not change what `rstrip()` gives. */
  lemma {:induction false} RStripIgnoresTrailingSpace(s: string, pad: string)
    requires AllSpace(pad)
    ensures RStrip(s + pad) == RStrip(s)
    decreases |pad|
  {
    if pad != [] {
      var shorter := pad[..|pad| - 1];
      assert (s + pad)[..|s + pad| - 1] == s + shorter;
      RStripIgnoresTrailingSpace(s, shorter);
    } else {
      assert s + pad == s;
    }
  }

  // ---------------------------------------------------------------------------
  // split(sep) with a one-character separator, and its inverse join

  /** `s.split(sep)`: the pieces of `s` between occurrences of `sep`; never empty. */
  function Split(s: string, sep: char): (r: seq<string>)
    ensures |r| >= 1
    ensures forall k :: 0 <= k < |r| ==> sep !in r[k]
  {
    if s == [] then [[]]
    else
      var tail := Split(s[1..], sep);
      if s[0] == sep then [[]] + tail
      else [[s[0]] + tail[0]] + tail[1..]
  }

  /** `sep.join(pieces)`. */
  function Join(pieces: seq<string>, sep: char): string
    requires |pieces| >= 1
  {
    if |pieces| == 1 then pieces[0] else pieces[0] + [sep] + Join(pieces[1..], sep)
  }

  /** Joining the pieces of a split gives back the string. */
  lemma {:induction false} JoinSplit(s: string, sep: char)
    ensures Join(Split(s, sep), sep) == s
  {
    if s != [] {
      var tail := Split(s[1..], sep);
      JoinSplit(s[1..], sep);
      if s[0] == sep {
        assert Split(s, sep)[1..] == tail;
      } else {
        var r := Split(s, sep);
        if |tail| == 1 {
          assert r == [[s[0]] + tail[0]];
        } else {
          assert r[1..] == tail[1..];
          assert Join(r, sep) == [s[0]] + tail[0] + [sep] + Join(tail[1..], sep);
        }
      }
    }
  }

  /** A piece free of the separator, followed by the separator, is split off as the first piece. */
  lemma {:induction false} SplitFirstPiece(piece: string, sep: char, rest: string)
    requires sep !in piece
    ensures Split(piece + [sep] + rest, sep) == [piece] + Split(rest, sep)
    decreases |piece|
  {
    if piece == [] {
      assert piece + [sep] + rest == [sep] + rest;
      assert ([sep] + rest)[1..] == rest;
    } else {
      var s := piece + [sep] + rest;
      assert s[1..] == piece[1..] + [sep] + rest;
      SplitFirstPiece(piece[1..], sep, rest);
      assert [s[0]] + piece[1..] == piece;
    }
  }

  /** A string without the separator is one piece. */
  lemma {:induction false} SplitNoSeparator(s: string, sep: char)
    requires sep !in s
    ensures Split(s, sep) == [s]
  {
    if s != [] {
      assert sep !in s[1..];
      SplitNoSeparator(s[1..], sep);
      assert [s[0]] + s[1..] == s;
    }
  }

  /** Splitting separator-free pieces joined by the separator gives back the pieces. */
  lemma {:induction false} SplitJoin(pieces: seq<string>, sep: char)
    requires |pieces| >= 1
    requires forall k :: 0 <= k < |pieces| ==> sep !in pieces[k]
    ensures Split(Join(pieces, sep), sep) == pieces
  {
    if |pieces| == 1 {
      SplitNoSeparator(pieces[0], sep);
    } else {
      SplitJoin(pieces[1..], sep);
      SplitFirstPiece(pieces[0], sep, Join(pieces[1..], sep));
      assert [pieces[0]] + pieces[1..] == pieces;
    }
  }

  // ---------------------------------------------------------------------------
  // split() without arguments

  /** Length of the run of non-whitespace characters that starts `s`. */
  function WordLength(s: string): (n: nat)
    ensures n <= |s|
    ensures forall i :: 0 <= i < n ==> !IsSpace(s[i])
    ensures n == |s| || IsSpace(s[n])
  {
    if s == [] || IsSpace(s[0]) then 0 else 1 + WordLength(s[1..])
  }

  /** `s.split()`: the maximal runs of non-whitespace characters, in order. */
  function Words(s: string): (r: seq<string>)
    ensures forall k :: 0 <= k < |r| ==> r[k] != [] && NoSpace(r[k])
    decreases |s|
  {
    if s == [] then []
    else if IsSpace(s[0]) then Words(s[1..])
    else
      var n := WordLength(s);
      [s[..n]] + Words(s[n..])
  }

  /** Words separated by one blank each: the layout of a table cell. */
  function Spaced(words: seq<string>): string
  {
    if words == [] then [] else [' '] + words[0] + Spaced(words[1..])
  }

  /** Leading whitespace is skipped by `split()`. */
  lemma {:induction false} WordsSkipsSpace(pad: string, s: string)
    requires AllSpace(pad)
    ensures Words(pad + s) == Words(s)
    decreases |pad|
  {
    if pad != [] {
      assert (pad + s)[1..] == pad[1..] + s;
      WordsSkipsSpace(pad[1..], s);
    } else {
      assert pad + s == s;
    }
  }

  /** A word followed by whitespace (or by nothing) is split off as the first word. */
  lemma WordsStep(w: string, rest: string)
    requires w != [] && NoSpace(w)
    requires rest == [] || IsSpace(rest[0])
    ensures Words(w + rest) == [w] + Words(rest)
  {
    WordLengthOfWord(w, rest);
    assert (w + rest)[..|w|] == w;
    assert (w + rest)[|w|..] == rest;
  }

  /** `split()` recovers the words that `Spaced` laid out: the two are inverses. */
  lemma {:induction false} WordsSpaced(words: seq<string>)
    requires forall k :: 0 <= k < |words| ==> words[k] != [] && NoSpace(words[k])
    ensures Words(Spaced(words)) == words
  {
    if words != [] {
      var rest := Spaced(words[1..]);
      WordsSpaced(words[1..]);
      assert ([' '] + words[0] + rest)[1..] == words[0] + rest;
      WordsStep(words[0], rest);
    }
  }

  /**
   * Words laid out with arbitrary whitespace: `gaps[k]` precedes `words[k]`
   * and `trail` ends the string.
   */
  function Padded(words: seq<string>, gaps: seq<string>, trail: string): string
    requires |gaps| == |words|
  {
    if words == [] then trail else gaps[0] + words[0] + Padded(words[1..], gaps[1..], trail)
  }

  /**
   * `split()` gives back the words of any layout whose gaps are whitespace,
   * non-empty between two words, with any leading and trailing whitespace.
   */
  lemma {:induction false} WordsPadded(words: seq<string>, gaps: seq<string>, trail: string)
    requires |gaps| == |words|
    requires forall k :: 0 <= k < |words| ==> words[k] != [] && NoSpace(words[k])
    requires forall k :: 0 <= k < |gaps| ==> AllSpace(gaps[k])
    requires forall k :: 1 <= k < |gaps| ==> gaps[k] != []
    requires AllSpace(trail)
    ensures Words(Padded(words, gaps, trail)) == words
  {
    if words == [] {
      WordsSkipsSpace(trail, []);
      assert trail + [] == trail;
    } else {
      var rest := Padded(words[1..], gaps[1..], trail);
      WordsPadded(words[1..], gaps[1..], trail);
      assert |words| > 1 ==> rest[0] == gaps[1][0];
      assert gaps[0] + words[0] + rest == gaps[0] + (words[0] + rest);
      WordsSkipsSpace(gaps[0], words[0] + rest);
      WordsStep(words[0], rest);
    }
  }

  /** Laying out two word lists one after the other. */
  lemma {:induction false} SpacedAppend(a: seq<string>, b: seq<string>)
    ensures Spaced(a + b) == Spaced(a) + Spaced(b)
  {
    if a != [] {
      assert (a + b)[1..] == a[1..] + b;
      SpacedAppend(a[1..], b);
    } else {
      assert a + b == b;
    }
  }
  /** A prefix laying out some words, followed by the layout of more words, lays out both lists. */
  lemma SpacedAfterPrefix(prefix: string, head: seq<string>, rest: string, tail: seq<string>)
    requires [' '] + prefix == Spaced(head) && rest == Spaced(tail)
    ensures [' '] + (prefix + rest) == Spaced(head + tail)
  {
    SpacedAppend(head, tail);
    assert [' '] + (prefix + rest) == ([' '] + prefix) + rest;
  }

  /** A string that a blank turns into a layout of clean words reads back as those words. */
  lemma WordsAfterBlank(s: string, words: seq<string>)
    requires [' '] + s == Spaced(words)
    requires forall k :: 0 <= k < |words| ==> words[k] != [] && NoSpace(words[k])
    ensures Words(s) == words
  {
    WordsSkipsSpace([' '], s);
    WordsSpaced(words);
  }

  lemma {:induction false} WordLengthOfWord(w: string, rest: string)
    requires NoSpace(w)
    requires rest == [] || IsSpace(rest[0])
    ensures WordLength(w + rest) == |w|
  {
    if w != [] {
      assert (w + rest)[1..] == w[1..] + rest;
      WordLengthOfWord(w[1..], rest);
    } else {
      assert w + rest == rest;
    }
  }

  // ---------------------------------------------------------------------------
  // Decimal digits

  predicate IsDigit(c: char)
  {
    '0' <= c <= '9'
  }

  predicate AllDigits(s: string)
  {
    forall i :: 0 <= i < |s| ==> IsDigit(s[i])
  }

  /** The value of a string of decimal digits, most significant first. */
  function DigitsValue(s: string): nat
    requires AllDigits(s)
  {
    if s == [] then 0 else 10 * DigitsValue(s[..|s| - 1]) + (s[|s| - 1] - '0') as nat
  }

  /** `str(n)` for a natural number: its shortest decimal representation. */
  function NatToString(n: nat): (s: string)
    ensures s != [] && AllDigits(s)
    ensures |s| > 1 ==> s[0] != '0'
  {
    if n < 10 then ['0' + n as char]
    else NatToString(n / 10) + ['0' + (n % 10) as char]
  }

  /** Reading back the digits of `str(n)` gives `n`. */
  lemma {:induction false} DigitsValueOfNatToString(n: nat)
    ensures DigitsValue(NatToString(n)) == n
  {
    if n >= 10 {
      var s := NatToString(n);
      assert s[..|s| - 1] == NatToString(n / 10);
      DigitsValueOfNatToString(n / 10);
    }
  }
}
