/** String helpers standing in for the parts of Go's `strings` package and of
    line-oriented text that the build step relies on.
 */
module Text {

  /** Lower-cases an ASCII letter; every other character is returned as is. */
  function LowerChar(c: char): char
  {
    if 'A' <= c <= 'Z' then (c as int + 32) as char else c
  }

  /** Go's `strings.ToLower`, character by character, on ASCII letters. */
  function ToLower(s: string): string
  {
    seq(|s|, i requires 0 <= i < |s| => LowerChar(s[i]))
  }

  /** A line of text: it holds no line terminator. */
  predicate IsLine(line: string)
  {
    '\n' !in line
  }

  predicate AreLines(lines: seq<string>)
  {
    forall i :: 0 <= i < |lines| ==> IsLine(lines[i])
  }

  /** Writes each line followed by a newline, in order. */
  function Unlines(lines: seq<string>): string
  {
    if |lines| == 0 then "" else lines[0] + "\n" + Unlines(lines[1..])
  }

  /** Reads text back into its lines. Every newline ends a line; trailing
      characters after the last newline form one more line. */
  function SplitLines(s: string): seq<string>
  {
    SplitFrom(s, "")
  }

  /** SplitLines with `current` already read into the line in progress. */
  function SplitFrom(s: string, current: string): seq<string>
    decreases |s|
  {
    if |s| == 0 then (if |current| == 0 then [] else [current])
    else if s[0] == '\n' then [current] + SplitFrom(s[1..], "")
    else SplitFrom(s[1..], current + [s[0]])
  }

  /** Number of newline characters in `s`. */
  function CountNewlines(s: string): nat
  {
    if |s| == 0 then 0 else (if s[0] == '\n' then 1 else 0) + CountNewlines(s[1..])
  }

  /** Reading one complete line finishes the line in progress and leaves the
      rest of the text to be read from a fresh line. */
  lemma {:induction false} SplitFromLine(line: string, rest: string, current: string)
    requires IsLine(line)
    ensures SplitFrom(line + "\n" + rest, current) == [current + line] + SplitFrom(rest, "")
    decreases |line|
  {
    var s := line + "\n" + rest;
    if |line| == 0 {
      assert s[0] == '\n' && s[1..] == rest;
      assert current + line == current;
    } else {
      assert s[0] == line[0] && line[0] != '\n';
      assert s[1..] == line[1..] + "\n" + rest;
      SplitFromLine(line[1..], rest, current + [line[0]]);
      assert current + [line[0]] + line[1..] == current + line;
    }
  }

  /** Splitting undoes Unlines whenever no line holds a newline of its own. */
  lemma {:induction false} SplitUnlines(lines: seq<string>)
    requires AreLines(lines)
    ensures SplitLines(Unlines(lines)) == lines
  {
    if |lines| > 0 {
      assert IsLine(lines[0]);
      SplitFromLine(lines[0], Unlines(lines[1..]), "");
      assert "" + lines[0] == lines[0];
      SplitUnlines(lines[1..]);
      assert lines == [lines[0]] + lines[1..];
    }
  }

  lemma {:induction false} CountNewlinesAppend(a: string, b: string)
    ensures CountNewlines(a + b) == CountNewlines(a) + CountNewlines(b)
    decreases |a|
  {
    if |a| > 0 {
      assert (a + b)[1..] == a[1..] + b;
      CountNewlinesAppend(a[1..], b);
    } else {
      assert a + b == b;
    }
  }

  /** A line holds no newline. */
  lemma {:induction false} CountNewlinesOfLine(line: string)
    requires IsLine(line)
    ensures CountNewlines(line) == 0
    decreases |line|
  {
    if |line| > 0 {
      assert line[0] != '\n';
      CountNewlinesOfLine(line[1..]);
    }
  }

  /** Unlines writes exactly one newline per line. */
  lemma {:induction false} UnlinesCountsLines(lines: seq<string>)
    requires AreLines(lines)
    ensures CountNewlines(Unlines(lines)) == |lines|
  {
    if |lines| > 0 {
      CountNewlinesAppend(lines[0], "\n" + Unlines(lines[1..]));
      CountNewlinesAppend("\n", Unlines(lines[1..]));
      assert lines[0] + "\n" + Unlines(lines[1..]) == lines[0] + ("\n" + Unlines(lines[1..]));
      CountNewlinesOfLine(lines[0]);
      UnlinesCountsLines(lines[1..]);
    }
  }

  /** Unlines is empty exactly when there are no lines. */
  lemma UnlinesEmpty(lines: seq<string>)
    ensures Unlines(lines) == "" <==> |lines| == 0
  {
  }

  /** A character other than newline that no line holds is not in the text. */
  lemma {:induction false} NotInUnlines(c: char, lines: seq<string>)
    requires c != '\n'
    requires forall i :: 0 <= i < |lines| ==> c !in lines[i]
    ensures c !in Unlines(lines)
  {
    if |lines| > 0 {
      assert c !in lines[0];
      NotInUnlines(c, lines[1..]);
    }
  }

  /** Writing one more line appends it and its newline to the text. */
  lemma UnlinesExtend(lines: seq<string>, i: nat)
    requires i < |lines|
    ensures Unlines(lines[..i + 1]) == Unlines(lines[..i]) + (lines[i] + "\n")
  {
    assert lines[..i + 1] == lines[..i] + [lines[i]];
    UnlinesAppend(lines[..i], [lines[i]]);
  }

  /** The text of a list with one line singled out: the lines before it,
      the line and its newline, then the lines after it. */
  lemma UnlinesAround(before: seq<string>, line: string, after: seq<string>)
    ensures Unlines(before + [line] + after) == Unlines(before) + (line + "\n") + Unlines(after)
  {
    assert before + [line] + after == before + ([line] + after);
    UnlinesAppend(before, [line] + after);
    assert ([line] + after)[1..] == after;
  }

  /** A line `head + mid + tail` written amid the texts `before` and
      `after`, regrouped around `mid`. */
  lemma RegroupLine(before: string, head: string, mid: string, tail: string, after: string)
    ensures before + ((head + mid + tail) + "\n") + after == (before + head) + mid + (tail + "\n" + after)
  {
  }

  /** Unlines of a concatenation is the concatenation of the texts. */
  lemma {:induction false} UnlinesAppend(a: seq<string>, b: seq<string>)
    ensures Unlines(a + b) == Unlines(a) + Unlines(b)
  {
    if |a| == 0 {
      assert a + b == b;
    } else {
      assert (a + b)[0] == a[0];
      assert (a + b)[1..] == a[1..] + b;
      UnlinesAppend(a[1..], b);
    }
  }
}
