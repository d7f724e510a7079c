/**
 * The lines java.io.BufferedReader.readLine returns from a text: "\n", "\r"
 * and "\r\n" each end a line.
 */
module Lines {

  /** The two characters BufferedReader.readLine ends a line at. */
  predicate IsLineBreak(c: char) {
    c == '\n' || c == '\r'
  }

  predicate NoLineBreak(s: string) {
    '\n' !in s && '\r' !in s
  }

  /** The length of the first physical line of s: the characters before its first line break. */
  function LineLength(s: string): (n: nat)
    ensures n <= |s|
    ensures NoLineBreak(s[..n])
    ensures n < |s| ==> IsLineBreak(s[n])
    decreases |s|
  {
    if s == [] || IsLineBreak(s[0]) then 0
    else
      var m := LineLength(s[1..]);
      assert s[..m + 1] == [s[0]] + s[1..][..m];
      m + 1
  }

  /**
   * The lines BufferedReader.readLine returns, one by one, for the text s:
   * "\n", "\r" and "\r\n" each end a line, and a last line without a
   * terminator still counts.
   */
  function ReadLines(s: string): (r: seq<string>)
    ensures forall k :: 0 <= k < |r| ==> NoLineBreak(r[k])
    ensures s != [] ==> r != []
    decreases |s|
  {
    if s == [] then []
    else [s[..LineLength(s)]] + ReadLines(s[NextLine(s)..])
  }

  /** Where the second physical line of s starts: after the first line and its terminator ("\r\n" counts as one). */
  function NextLine(s: string): (next: nat)
    requires s != []
    ensures 0 < next <= |s|
    ensures LineLength(s) == |s| ==> next == |s|
    ensures LineLength(s) < |s| ==> LineLength(s) < next <= LineLength(s) + 2
  {
    var n := LineLength(s);
    if n == |s| then n
    else if s[n] == '\r' && n + 1 < |s| && s[n + 1] == '\n' then n + 2
    else n + 1
  }

  /** The first physical line ends at or before any line break. */
  lemma {:induction false} LineLengthBound(s: string, j: nat)
    requires j < |s| && IsLineBreak(s[j])
    ensures LineLength(s) <= j
  {
  }

  /** The first physical line is exactly the break-free stretch up to the first line break. */
  lemma {:induction false} LineLengthAt(s: string, n: nat)
    requires n <= |s| && NoLineBreak(s[..n]) && (n < |s| ==> IsLineBreak(s[n]))
    ensures LineLength(s) == n
  {
    if n < |s| {
      LineLengthBound(s, n);
    }
  }

  /** A text without a line break, followed by a terminator, is read back as that one line. */
  lemma {:induction false} ReadOneLine(s: string)
    requires NoLineBreak(s)
    ensures ReadLines(s + "\n") == [s]
  {
    var t := s + "\n";
    var n := LineLength(t);
    LineLengthBound(t, |s|);
    assert t[..n] == s;
    assert t[NextLine(t)..] == [];
  }

  /** Two break-free lines, each ended by a line feed, are read back as those two lines. */
  lemma {:induction false} ReadTwoLines(first: string, second: string)
    requires NoLineBreak(first) && NoLineBreak(second)
    ensures ReadLines(first + "\n" + second + "\n") == [first, second]
  {
    var text := first + "\n" + second + "\n";
    assert text[..|first|] == first && text[|first|] == '\n';
    LineLengthAt(text, |first|);
    assert text[NextLine(text)..] == second + "\n";
    ReadOneLine(second);
  }

  /** A text holding a line break, and not ending in one, is read back as two lines or more. */
  lemma {:induction false} ReadBrokenLine(s: string)
    requires !NoLineBreak(s) && s != [] && !IsLineBreak(s[|s| - 1])
    ensures |ReadLines(s + "\n")| >= 2
  {
    var t := s + "\n";
    var j :| 0 <= j < |s| && IsLineBreak(s[j]);
    var n := LineLength(t);
    LineLengthBound(t, j);
    assert j < |s| - 1;
    assert t[NextLine(t)..] != [];
  }

  /** Ended by a terminator, a text that does not itself end in a line break is read as one line exactly when it holds none. */
  lemma {:induction false} ReadLinesSingle(s: string)
    requires s != [] && !IsLineBreak(s[|s| - 1])
    ensures ReadLines(s + "\n") == [s] <==> NoLineBreak(s)
  {
    if NoLineBreak(s) {
      ReadOneLine(s);
    } else {
      ReadBrokenLine(s);
    }
  }
}
