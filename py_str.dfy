/**
 * The Python string operations that the parser relies on: `str.split(sep)`,
 * `str.split()`, `str.rstrip()`, `int()` on a decimal token and the
 * line-by-line iteration of a text file. `JoinWith` (`sep.join`) and
 * `NatToString` (`str(n)`) are not used by the parser: they are reference
 * inverses for the round-trip lemmas about `split` and `int()`.
 */
module PyStr {
  import opened Wrappers

  /** Python's `str.isspace()` for one character. */
  predicate IsSpace(c: char) {
    c == ' ' || ('\t' <= c <= '\r') || ('\U{1C}' <= c <= '\U{1F}')
    || c == '\U{85}' || c == '\U{A0}' || c == '\U{1680}'
    || ('\U{2000}' <= c <= '\U{200A}') || c == '\U{2028}' || c == '\U{2029}'
    || c == '\U{202F}' || c == '\U{205F}' || c == '\U{3000}'
  }

  /** No character of `w` is whitespace. */
  predicate NoSpace(w: string) {
    forall k :: 0 <= k < |w| ==> !IsSpace(w[k])
  }

  /** Every character of `s` is whitespace. */
  predicate AllSpace(s: string) {
    forall k :: 0 <= k < |s| ==> IsSpace(s[k])
  }

  /** The characters of `s` that are not whitespace, in order. */
  function NonSpace(s: string): string {
    if s == [] then []
    else (if IsSpace(s[0]) then [] else [s[0]]) + NonSpace(s[1..])
  }

  /** The concatenation of a sequence of strings. */
  function Concat(parts: seq<string>): string {
    if parts == [] then [] else parts[0] + Concat(parts[1..])
  }

  /** Concatenating a first piece and the rest. */
  lemma ConcatCons(first: string, rest: seq<string>)
    ensures Concat([first] + rest) == first + Concat(rest)
  {
    assert ([first] + rest)[1..] == rest;
  }

  /** Python's `sep.join(pieces)` for a one-character separator, the reference inverse of `SplitOn` and `SplitWs`. */
  function JoinWith(pieces: seq<string>, sep: char): string {
    if |pieces| == 0 then []
    else if |pieces| == 1 then pieces[0]
    else pieces[0] + [sep] + JoinWith(pieces[1..], sep)
  }

  /** Position of the first `c` in `s`, or `|s|` when there is none (`str.find`). */
  function IndexOf(s: string, c: char): (i: nat)
    ensures i <= |s|
    ensures i < |s| ==> s[i] == c
  {
    if s == [] then 0
    else if s[0] == c then 0
    else 1 + IndexOf(s[1..], c)
  }

  /** No `c` comes before the position `IndexOf` returns, so that position is the first `c` or the end. */
  lemma {:induction false} IndexOfSpec(s: string, c: char)
    ensures forall k :: 0 <= k < IndexOf(s, c) ==> s[k] != c
  {
    if s != [] && s[0] != c {
      IndexOfSpec(s[1..], c);
      assert forall k :: 1 <= k < |s| ==> s[k] == s[1..][k - 1];
    }
  }

  /** Python's `s.split(sep)`: the pieces between occurrences of `sep`, never an empty list. */
  function SplitOn(s: string, sep: char): (pieces: seq<string>)
    ensures |pieces| >= 1
    decreases |s|
  {
    var i := IndexOf(s, sep);
    if i == |s| then [s] else [s[..i]] + SplitOn(s[i + 1..], sep)
  }

  /** The pieces of `split` hold no separator, and joining them with it gives back the string. */
  lemma {:induction false} SplitOnSpec(s: string, sep: char)
    ensures forall k :: 0 <= k < |SplitOn(s, sep)| ==> sep !in SplitOn(s, sep)[k]
    ensures JoinWith(SplitOn(s, sep), sep) == s
    decreases |s|
  {
    var i := IndexOf(s, sep);
    IndexOfSpec(s, sep);
    if i == |s| {
      assert s[..i] == s;
    } else {
      var rest := SplitOn(s[i + 1..], sep);
      SplitOnSpec(s[i + 1..], sep);
      assert s == s[..i] + [sep] + s[i + 1..];
      assert ([s[..i]] + rest)[1..] == rest;
    }
  }

  /** The first separator in `a + [c] + b` is the one after `a` when `a` has none. */
  lemma IndexOfAfterPrefix(a: string, c: char, b: string)
    requires c !in a
    ensures IndexOf(a + [c] + b, c) == |a|
  {
    var s := a + [c] + b;
    IndexOfSpec(s, c);
    assert forall k :: 0 <= k < |a| ==> s[k] == a[k];
    assert s[|a|] == c;
  }

  /** `split` undoes `join` when no piece contains the separator. */
  lemma {:induction false} SplitOnJoinWith(pieces: seq<string>, sep: char)
    requires |pieces| >= 1
    requires forall k :: 0 <= k < |pieces| ==> sep !in pieces[k]
    ensures SplitOn(JoinWith(pieces, sep), sep) == pieces
  {
    if |pieces| > 1 {
      var head, tail := pieces[0], JoinWith(pieces[1..], sep);
      var s := head + [sep] + tail;
      IndexOfAfterPrefix(head, sep, tail);
      assert s[..|head|] == head;
      assert s[|head| + 1..] == tail;
      SplitOnJoinWith(pieces[1..], sep);
      assert pieces == [head] + pieces[1..];
    }
  }

  /** Length of the run of non-whitespace characters that starts `s`. */
  function WordLen(s: string): (n: nat)
    ensures n <= |s|
    ensures forall k :: 0 <= k < n ==> !IsSpace(s[k])
    ensures n < |s| ==> IsSpace(s[n])
  {
    if s == [] || IsSpace(s[0]) then 0 else 1 + WordLen(s[1..])
  }

  /** Removing whitespace distributes over concatenation. */
  lemma {:induction false} NonSpaceAppend(a: string, b: string)
    ensures NonSpace(a + b) == NonSpace(a) + NonSpace(b)
  {
    if a == [] {
      assert a + b == b;
    } else {
      var head := if IsSpace(a[0]) then [] else [a[0]];
      assert NonSpace(a + b) == head + NonSpace(a[1..] + b) by {
        assert (a + b)[0] == a[0];
        assert (a + b)[1..] == a[1..] + b;
      }
      NonSpaceAppend(a[1..], b);
      assert head + (NonSpace(a[1..]) + NonSpace(b)) == (head + NonSpace(a[1..])) + NonSpace(b);
    }
  }

  /** A string without whitespace is left as it is. */
  lemma {:induction false} NonSpaceOfWord(w: string)
    requires NoSpace(w)
    ensures NonSpace(w) == w
  {
    if w != [] {
      NonSpaceOfWord(w[1..]);
    }
  }

  /** Python's `s.split()` with no argument: the maximal runs of non-whitespace characters. */
  function SplitWs(s: string): seq<string>
    decreases |s|
  {
    if s == [] then []
    else if IsSpace(s[0]) then SplitWs(s[1..])
    else
      var n := WordLen(s);
      [s[..n]] + SplitWs(s[n..])
  }

  /**
   * Each field of `split()` is non-empty and free of whitespace, and together
   * the fields hold exactly the non-whitespace characters of `s`, in order.
   */
  lemma {:induction false} SplitWsSpec(s: string)
    ensures var fields := SplitWs(s);
      && (forall k :: 0 <= k < |fields| ==> fields[k] != [] && NoSpace(fields[k]))
      && Concat(fields) == NonSpace(s)
    decreases |s|
  {
    if s != [] {
      if IsSpace(s[0]) {
        SplitWsSpec(s[1..]);
      } else {
        var n := WordLen(s);
        var rest := SplitWs(s[n..]);
        SplitWsSpec(s[n..]);
        assert s == s[..n] + s[n..];
        NonSpaceAppend(s[..n], s[n..]);
        NonSpaceOfWord(s[..n]);
        var fields := [s[..n]] + rest;
        assert SplitWs(s) == fields;
        assert fields[1..] == rest;
        forall k | 1 <= k < |fields|
          ensures fields[k] == rest[k - 1]
        {
        }
      }
    }
  }

  /** The first word of `w + rest` is `w` when `rest` is empty or starts with whitespace. */
  lemma WordLenOfWord(w: string, rest: string)
    requires NoSpace(w)
    requires rest == [] || IsSpace(rest[0])
    ensures WordLen(w + rest) == |w|
  {
    var s := w + rest;
    assert forall k :: 0 <= k < |w| ==> s[k] == w[k];
    assert rest != [] ==> s[|w|] == rest[0];
  }

  /** `split()` recovers words joined by single spaces. */
  lemma {:induction false} SplitWsJoin(words: seq<string>)
    requires forall k :: 0 <= k < |words| ==> words[k] != [] && NoSpace(words[k])
    ensures SplitWs(JoinWith(words, ' ')) == words
  {
    if |words| == 1 {
      SplitWsOneWord(words[0]);
    } else if |words| > 1 {
      var w, tail := words[0], JoinWith(words[1..], ' ');
      SplitWsWordThenSpace(w, tail);
      SplitWsJoin(words[1..]);
      assert words == [w] + words[1..];
    }
  }

  /** A non-empty word without whitespace is its own single field. */
  lemma SplitWsOneWord(w: string)
    requires w != [] && NoSpace(w)
    ensures SplitWs(w) == [w]
  {
    WordLenOfWord(w, []);
    assert w + [] == w;
    assert w[|w|..] == [];
  }

  /** A word followed by a space is the first field; the rest is split after it. */
  lemma SplitWsWordThenSpace(w: string, tail: string)
    requires w != [] && NoSpace(w)
    ensures SplitWs(w + [' '] + tail) == [w] + SplitWs(tail)
  {
    var s := w + [' '] + tail;
    WordLenOfWord(w, [' '] + tail);
    assert s == w + ([' '] + tail);
    assert s[..|w|] == w;
    assert s[|w|..] == [' '] + tail;
    assert ([' '] + tail)[1..] == tail;
  }

  /** A run of whitespace in front of the text adds no field and cuts none. */
  lemma {:induction false} SplitWsSkip(gap: string, rest: string)
    requires AllSpace(gap)
    ensures SplitWs(gap + rest) == SplitWs(rest)
    decreases |gap|
  {
    if gap == [] {
      assert gap + rest == rest;
    } else {
      var s := gap + rest;
      assert s[0] == gap[0];
      assert s[1..] == gap[1..] + rest;
      assert AllSpace(gap[1..]) by {
        assert forall k :: 0 <= k < |gap| - 1 ==> gap[1..][k] == gap[k + 1];
      }
      SplitWsSkip(gap[1..], rest);
    }
  }

  /**
   * Whitespace separates fields: a word followed by any non-empty run of
   * whitespace (spaces, tabs, line ends, in any number) is one field, and the
   * text after the run is split on its own.
   */
  lemma SplitWsRun(w: string, gap: string, rest: string)
    requires w != [] && NoSpace(w)
    requires gap != [] && AllSpace(gap)
    ensures SplitWs(w + gap + rest) == [w] + SplitWs(rest)
  {
    var s := w + gap + rest;
    WordLenOfWord(w, gap + rest);
    assert s == w + (gap + rest);
    assert s[..|w|] == w;
    assert s[|w|..] == gap + rest;
    SplitWsSkip(gap, rest);
  }

  /** Python's `s.rstrip()`: `s` without its trailing whitespace. */
  function RStrip(s: string): (r: string)
    ensures r <= s
    ensures forall k :: |r| <= k < |s| ==> IsSpace(s[k])
    ensures r == [] || !IsSpace(r[|r| - 1])
  {
    if s == [] || !IsSpace(s[|s| - 1]) then s else RStrip(s[..|s| - 1])
  }

  /** Stripping a line ending from a line that ends in a non-space character gives back the line. */
  lemma RStripLineEnd(line: string)
    requires line != [] && !IsSpace(line[|line| - 1])
    ensures RStrip(line + "\n") == line
  {
    var s := line + "\n";
    var r := RStrip(s);
    assert s[|line| - 1] == line[|line| - 1];
    assert |r| == |line|;
    assert forall k :: 0 <= k < |r| ==> r[k] == line[k];
  }

  /** A line made only of whitespace has no fields once stripped and split. */
  lemma BlankLineHasNoFields(s: string)
    requires forall k :: 0 <= k < |s| ==> IsSpace(s[k])
    ensures SplitWs(RStrip(s)) == []
  {
  }

  predicate IsDigit(c: char) {
    '0' <= c <= '9'
  }

  /** A non-empty string of ASCII decimal digits. */
  predicate IsDecimal(s: string) {
    |s| > 0 && forall k :: 0 <= k < |s| ==> IsDigit(s[k])
  }

  /** The number that a string of decimal digits denotes (leading zeros allowed). */
  function DigitsValue(s: string): nat
    requires forall k :: 0 <= k < |s| ==> IsDigit(s[k])
  {
    if s == [] then 0
    else
      assert IsDigit(s[|s| - 1]);
      DigitsValue(s[..|s| - 1]) * 10 + (s[|s| - 1] as int - '0' as int)
  }

  /**
   * Python's `int(token)`, restricted to tokens of ASCII digits: `None` stands
   * for the `ValueError` that every other token raises here.
   */
  function ParseInt(s: string): (r: Option<nat>)
    ensures r.Some? <==> IsDecimal(s)
  {
    if IsDecimal(s) then Some(DigitsValue(s)) else None
  }

  /** The canonical decimal spelling of `n` (Python's `str(n)`), the reference inverse of `ParseInt`. */
  function NatToString(n: nat): (s: string)
    ensures IsDecimal(s)
    ensures |s| == 1 || s[0] != '0'
  {
    var d := ['0' + ((n % 10) as char)];
    if n < 10 then d else NatToString(n / 10) + d
  }

  /** `int(str(n)) == n`. */
  lemma {:induction false} ParseIntOfNatToString(n: nat)
    ensures ParseInt(NatToString(n)) == Some(n)
  {
    var s := NatToString(n);
    assert s[|s| - 1] as int - '0' as int == n % 10;
    if n >= 10 {
      ParseIntOfNatToString(n / 10);
      assert s[..|s| - 1] == NatToString(n / 10);
    } else {
      assert s[..|s| - 1] == [];
      assert DigitsValue(s) == DigitsValue([]) * 10 + n % 10;
    }
  }

  /** `int` ignores leading zeros: `int("0" + t) == int(t)` for a decimal `t`. */
  lemma {:induction false} ParseIntLeadingZero(t: string)
    requires IsDecimal(t)
    ensures ParseInt("0" + t) == ParseInt(t)
  {
    DigitsValueLeadingZero(t);
  }

  lemma {:induction false} DigitsValueLeadingZero(t: string)
    requires forall k :: 0 <= k < |t| ==> IsDigit(t[k])
    ensures DigitsValue("0" + t) == DigitsValue(t)
  {
    if t != [] {
      var s := "0" + t;
      assert s[..|s| - 1] == "0" + t[..|t| - 1];
      DigitsValueLeadingZero(t[..|t| - 1]);
    }
  }

  /**
   * The pieces of `content` each running up to and including the next `sep`;
   * a final piece without one is a piece too.
   */
  function SplitAfter(content: string, sep: char): seq<string>
    decreases |content|
  {
    if content == [] then []
    else
      var i := IndexOf(content, sep);
      if i == |content| then [content] else [content[..i + 1]] + SplitAfter(content[i + 1..], sep)
  }

  /** Splitting loses nothing and adds nothing: the pieces concatenate back to the text. */
  lemma {:induction false} SplitAfterConcat(content: string, sep: char)
    ensures Concat(SplitAfter(content, sep)) == content
    decreases |content|
  {
    if content != [] {
      var i := IndexOf(content, sep);
      if i < |content| {
        SplitAfterConcat(content[i + 1..], sep);
        SplitAfterConcatStep(content, sep, i);
      } else {
        SplitAfterNone(content, sep);
        ConcatCons(content, []);
        assert [content] + [] == [content];
      }
    }
  }

  /** If the pieces after the first separator concatenate back, so do all pieces. */
  lemma SplitAfterConcatStep(content: string, sep: char, i: nat)
    requires i < |content| && IndexOf(content, sep) == i
    requires Concat(SplitAfter(content[i + 1..], sep)) == content[i + 1..]
    ensures Concat(SplitAfter(content, sep)) == content
  {
    SplitAfterFirst(content, sep, i);
    ConcatPrefix(content, i + 1, SplitAfter(content[i + 1..], sep));
  }

  /** A prefix of `s` in front of pieces that concatenate to the rest of `s` concatenates to `s`. */
  lemma ConcatPrefix(s: string, n: nat, rest: seq<string>)
    requires n <= |s| && Concat(rest) == s[n..]
    ensures Concat([s[..n]] + rest) == s
  {
    ConcatCons(s[..n], rest);
    assert s == s[..n] + s[n..];
  }

  /**
   * Pieces as split after `sep`: no piece is empty, a separator can only end
   * a piece, and every piece but the last ends in one.
   */
  predicate SplitAfterPieces(lines: seq<string>, sep: char) {
    && (forall k :: 0 <= k < |lines| ==> lines[k] != [] && sep !in lines[k][..|lines[k]| - 1])
    && (forall k :: 0 <= k < |lines| - 1 ==> lines[k][|lines[k]| - 1] == sep)
  }

  /** What `SplitAfter` returns has the shape of pieces split after `sep`. */
  lemma {:induction false} SplitAfterShape(content: string, sep: char)
    ensures SplitAfterPieces(SplitAfter(content, sep), sep)
    decreases |content|
  {
    if content != [] {
      var i := IndexOf(content, sep);
      IndexOfSpec(content, sep);
      if i == |content| {
        assert content[..|content| - 1] <= content[..i];
      } else {
        var line := content[..i + 1];
        SplitAfterFirst(content, sep, i);
        SplitAfterShape(content[i + 1..], sep);
        assert sep !in line[..|line| - 1] by {
          assert line[..|line| - 1] == content[..i];
          assert forall k :: 0 <= k < i ==> content[..i][k] == content[k];
        }
        PiecesCons(line, SplitAfter(content[i + 1..], sep), sep);
      }
    }
  }

  /** A piece ending in the separator, put in front of pieces, keeps their shape. */
  lemma PiecesCons(line: string, rest: seq<string>, sep: char)
    requires line != [] && sep !in line[..|line| - 1] && line[|line| - 1] == sep
    requires SplitAfterPieces(rest, sep)
    ensures SplitAfterPieces([line] + rest, sep)
  {
    var lines := [line] + rest;
    forall k | 1 <= k < |lines|
      ensures lines[k] == rest[k - 1]
    {
    }
  }

  /** The first piece runs up to and including the first separator. */
  lemma SplitAfterFirst(s: string, sep: char, i: nat)
    requires i < |s| && IndexOf(s, sep) == i
    ensures SplitAfter(s, sep) == [s[..i + 1]] + SplitAfter(s[i + 1..], sep)
  {
    assert s != [] && IndexOf(s, sep) != |s|;
  }

  /** Text without a separator is a single piece. */
  lemma SplitAfterNone(s: string, sep: char)
    requires s != [] && IndexOf(s, sep) == |s|
    ensures SplitAfter(s, sep) == [s]
  {
  }

  /** When `c` holds a separator, appending to `c` leaves the first piece as it was. */
  lemma SplitAfterAppendFirst(c: string, l: string, sep: char, i: nat)
    requires i < |c| && IndexOf(c, sep) == i
    ensures SplitAfter(c + l, sep) == [c[..i + 1]] + SplitAfter(c[i + 1..] + l, sep)
  {
    var s := c + l;
    IndexOfAppend(c, l, sep);
    assert s[..i + 1] == c[..i + 1];
    assert s[i + 1..] == c[i + 1..] + l;
    SplitAfterFirst(s, sep, i);
  }

  /** The first `c` in `a + b` is the first one in `a` when `a` has one. */
  lemma IndexOfAppend(a: string, b: string, c: char)
    requires IndexOf(a, c) < |a|
    ensures IndexOf(a + b, c) == IndexOf(a, c)
  {
    var i := IndexOf(a, c);
    IndexOfSpec(a, c);
    IndexOfSpec(a + b, c);
    assert forall k :: 0 <= k <= i ==> (a + b)[k] == a[k];
  }

  /** A non-empty text whose only separator, if any, is its last character is one piece. */
  lemma SplitAfterOnePiece(l: string, sep: char)
    requires l != [] && sep !in l[..|l| - 1]
    ensures SplitAfter(l, sep) == [l]
  {
    assert forall k :: 0 <= k < |l| - 1 ==> l[k] != sep by {
      assert forall k :: 0 <= k < |l| - 1 ==> l[..|l| - 1][k] == l[k];
    }
    var i := IndexOf(l, sep);
    assert i >= |l| - 1;
    if i < |l| {
      assert l[i + 1..] == [];
      assert l[..i + 1] == l;
    }
  }

  /**
   * Appending a final piece `l` to text that is empty or ends in the separator
   * adds exactly that piece: for `sep == '\n'`, what iterating the file yields
   * gains exactly the appended line.
   */
  lemma {:induction false} SplitAfterAppend(c: string, l: string, sep: char)
    requires c == [] || c[|c| - 1] == sep
    requires l != [] && sep !in l[..|l| - 1]
    ensures SplitAfter(c + l, sep) == SplitAfter(c, sep) + [l]
    decreases |c|
  {
    if c == [] {
      assert c + l == l;
      SplitAfterOnePiece(l, sep);
    } else {
      var i := IndexOf(c, sep);
      assert i < |c| by {
        IndexOfSpec(c, sep);
      }
      var first, rest := c[..i + 1], c[i + 1..];
      assert SplitAfter(c, sep) == [first] + SplitAfter(rest, sep) by {
        SplitAfterFirst(c, sep, i);
      }
      SplitAfterAppendFirst(c, l, sep, i);
      assert SplitAfter(rest + l, sep) == SplitAfter(rest, sep) + [l] by {
        assert rest == [] || rest[|rest| - 1] == c[|c| - 1];
        SplitAfterAppend(rest, l, sep);
      }
      assert [first] + (SplitAfter(rest, sep) + [l]) == [first] + SplitAfter(rest, sep) + [l];
    }
  }
}
