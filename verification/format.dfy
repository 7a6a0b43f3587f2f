/** Go's `fmt.Sprintf(format)` called with a format string and no operands.

    The build step hands the extension ini text to a file-writing helper as
    its format string, so the text written is the text after this pass. With
    no operands every directive is malformed: `%%` prints `%`, any other verb
    prints `%!<verb>(MISSING)`, an argument index `[n]` turns that into
    `%!<verb>(BADINDEX)`, a `*` width or precision prints `%!(BADWIDTH)` or
    `%!(BADPREC)`, and a directive with no verb prints `%!(NOVERB)` and ends
    the output. Characters outside directives are copied.
 */
module Format {
  import opened Outcomes

  predicate IsFlag(c: char)
  {
    c == '#' || c == '0' || c == '+' || c == '-' || c == ' '
  }

  predicate IsDigit(c: char)
  {
    '0' <= c <= '9'
  }

  /** The outcome of reading a decimal number: its value, whether any digit
      was read, and where reading stopped. */
  datatype Num = Num(value: nat, present: bool, next: nat)

  /** Go's `parsenum`: reads the digits of `t[start..end]`. A number that
      has grown past a million before its next digit (`tooLarge`) is
      abandoned: reading jumps to `end`. */
  function ParseNum(t: string, start: nat, end: nat): (r: Num)
    requires start <= end <= |t|
    ensures start <= r.next <= end
  {
    if start >= end then Num(0, false, end) else ParseDigits(t, start, end, 0, false)
  }

  /** The digit loop of `parsenum`, with the value read so far. */
  function ParseDigits(t: string, i: nat, end: nat, value: nat, present: bool): (r: Num)
    requires i <= end <= |t|
    ensures i <= r.next <= end
    decreases end - i
  {
    if i < end && IsDigit(t[i]) then
      if value > 1000000 then Num(0, false, end)
      else ParseDigits(t, i + 1, end, value * 10 + (t[i] as int - '0' as int), true)
    else Num(value, present, i)
  }

  /** The first `]` in `f` at or after position `j`, as the search loop of
      Go's `parseArgNumber` finds it. */
  function FindClose(f: string, j: nat): (r: Option<nat>)
    requires j <= |f|
    ensures r.Some? ==> j <= r.value < |f| && f[r.value] == ']'
    decreases |f| - j
  {
    if j == |f| then None
    else if f[j] == ']' then Some(j)
    else FindClose(f, j + 1)
  }

  /** The outcome of reading an argument index `[n]`: where reading
      continues, whether `n` was a well-formed number, and whether a `[` was
      there at all. With no operands, every index is out of range. */
  datatype Index = Index(next: nat, ok: bool, bracket: bool)

  /** Go's `argNumber` with `parseArgNumber`: an index `[n]` at position `i`.
      A format of fewer than three characters or one without `]` uses up
      only the `[`; otherwise reading continues after the `]`. */
  function ArgNumber(t: string, i: nat): (r: Index)
    requires i <= |t|
    ensures i <= r.next <= |t|
    ensures !r.bracket ==> r.next == i && !r.ok
  {
    if i >= |t| || t[i] != '[' then Index(i, false, false)
    else
      var f := t[i..];
      if |f| < 3 then Index(i + 1, false, true)
      else match FindClose(f, 1)
        case None => Index(i + 1, false, true)
        case Some(k) =>
          var n := ParseNum(f, 1, k);
          Index(i + k + 1, n.present && n.next == k, true)
  }

  /** The flag loop at the head of a directive in Go's `doPrintf`: skips
      the characters from position `i` that are flags. */
  function SkipFlags(t: string, i: nat): (r: nat)
    requires i <= |t|
    ensures i <= r <= |t|
    decreases |t| - i
  {
    if i < |t| && IsFlag(t[i]) then SkipFlags(t, i + 1) else i
  }

  /** What a width or precision prints, where reading continues after it,
      whether an argument index was read right before that point, and
      whether any `[` has been met so far in the directive. */
  datatype Part = Part(out: string, next: nat, afterIndex: bool, bracket: bool)

  /** The width block of Go's `doPrintf`, read after the flags and argument
      index `a0`: `*` asks `intFromArg` for an operand and there is none;
      otherwise `parsenum` reads a number, possibly absent. */
  function Width(t: string, a0: Index): (r: Part)
    requires a0.next <= |t|
    ensures a0.next <= r.next <= |t|
    ensures r.bracket == a0.bracket
  {
    if a0.next < |t| && t[a0.next] == '*' then Part("%!(BADWIDTH)", a0.next + 1, false, a0.bracket)
    else Part("", ParseNum(t, a0.next, |t|).next, a0.ok, a0.bracket)
  }

  /** The precision block of Go's `doPrintf`: a `.` that is not the last
      character, then an argument index, then `*` (`intFromArg` finds no
      operand) or a number read by `parsenum`. */
  function Precision(t: string, w: Part): (r: Part)
    requires w.next <= |t|
    ensures w.next <= r.next <= |t|
    ensures w.bracket ==> r.bracket
  {
    if w.next + 1 < |t| && t[w.next] == '.' then
      var a1 := ArgNumber(t, w.next + 1);
      if a1.next < |t| && t[a1.next] == '*' then Part("%!(BADPREC)", a1.next + 1, false, w.bracket || a1.bracket)
      else Part("", ParseNum(t, a1.next, |t|).next, a1.ok, w.bracket || a1.bracket)
    else Part("", w.next, w.afterIndex, w.bracket)
  }

  /** The verb switch of Go's `doPrintf`, after the width `w` and precision
      `p`, preceded by an argument index unless one was just read. The end of
      the format prints `%!(NOVERB)`. A verb of `%` prints `%`; any other verb
      has no operand, and the report is `badArgNum`'s BADINDEX when a `[` was
      met anywhere in the directive and `missingArg`'s MISSING otherwise. */
  function Verb(t: string, w: Part, p: Part): (r: (string, nat))
    requires p.next <= |t|
    ensures r.1 <= |t|
  {
    var a2 := if p.afterIndex then Index(p.next, true, false) else ArgNumber(t, p.next);
    if a2.next >= |t| then (w.out + p.out + "%!(NOVERB)", |t|)
    else
      var verb := t[a2.next];
      var out :=
        if verb == '%' then "%"
        else if p.bracket || a2.bracket then "%!" + [verb] + "(BADINDEX)"
        else "%!" + [verb] + "(MISSING)";
      (w.out + p.out + out, a2.next + 1)
  }

  /** One directive, one turn of the loop of Go's `doPrintf`: `t` is the
      format after a `%`. The result is the text printed for the directive
      and how much of `t` it used. */
  function Directive(t: string): (r: (string, nat))
    ensures r.1 <= |t|
  {
    var w := Width(t, ArgNumber(t, SkipFlags(t, 0)));
    Verb(t, w, Precision(t, w))
  }

  /** `fmt.Sprintf(s)` with no operands, that is, Go's `doPrintf` over the
      whole format: text up to the next `%` is copied, then a directive is
      read. Text without a `%` is printed unchanged. */
  function Sprintf(s: string): (r: string)
    ensures '%' !in s ==> r == s
    decreases |s|, 1
  {
    if |s| == 0 then ""
    else if s[0] != '%' then [s[0]] + Sprintf(s[1..])
    else Directed(s)
  }

  /** One turn of the loop of Go's `doPrintf` at a `%` (`s` starts with
      one): the directive after it is printed, then the rest of the format. */
  function Directed(s: string): string
    requires |s| > 0 && s[0] == '%'
    decreases |s|, 0
  {
    var d := Directive(s[1..]);
    d.0 + Sprintf(s[1..][d.1..])
  }

  /** A character other than `%` is copied. */
  lemma SprintfCons(c: char, t: string)
    requires c != '%'
    ensures Sprintf([c] + t) == [c] + Sprintf(t)
  {
    assert ([c] + t)[1..] == t;
  }

  /** A leading run of text without `%` is copied as is. */
  lemma {:induction false} SprintfPlainPrefix(plain: string, rest: string)
    requires '%' !in plain
    ensures Sprintf(plain + rest) == plain + Sprintf(rest)
    decreases |plain|
  {
    if |plain| == 0 {
      assert plain + rest == rest;
    } else {
      var c, tail := plain[0], plain[1..];
      assert Sprintf(plain + rest) == [c] + Sprintf(tail + rest) by {
        assert plain[0] in plain;
        assert plain + rest == [c] + (tail + rest);
        SprintfCons(c, tail + rest);
      }
      assert Sprintf(tail + rest) == tail + Sprintf(rest) by {
        assert '%' !in tail by {
          forall k | 0 <= k < |tail| ensures tail[k] != '%' {
            assert tail[k] == plain[k + 1];
          }
        }
        SprintfPlainPrefix(tail, rest);
      }
      assert plain + Sprintf(rest) == [c] + (tail + Sprintf(rest)) by {
        assert plain == [c] + tail;
      }
    }
  }

  /** A format that starts with a directive: the directive's report, then
      the rest of the format, here free of `%`, copied. */
  lemma SprintfDirected(t: string, out: string, used: nat)
    requires used <= |t| && Directive(t) == (out, used)
    requires '%' !in t[used..]
    ensures Sprintf(['%'] + t) == out + t[used..]
  {
    var s := ['%'] + t;
    assert s[0] == '%' && s[1..] == t;
    assert Sprintf(s) == Directed(s);
  }

  /** One directive amid plain text: it prints what Directive says, and the
      text before it and after the part it uses is copied. */
  lemma SprintfAround(pre: string, t: string, out: string, used: nat)
    requires '%' !in pre
    requires used <= |t| && Directive(t) == (out, used)
    requires '%' !in t[used..]
    ensures Sprintf(pre + ['%'] + t) == pre + out + t[used..]
  {
    var s := ['%'] + t;
    assert Sprintf(s) == out + t[used..] by {
      SprintfDirected(t, out, used);
    }
    calc {
      Sprintf(pre + ['%'] + t);
      { assert pre + ['%'] + t == pre + s; }
      Sprintf(pre + s);
      { SprintfPlainPrefix(pre, s); }
      pre + Sprintf(s);
      pre + (out + t[used..]);
    }
  }

  /** A verb other than `%` that stands directly after the `%`. */
  predicate IsBareVerb(v: char)
  {
    !IsFlag(v) && !IsDigit(v) && v != '[' && v != '*' && v != '.' && v != '%'
  }

  /** A directive that is just a verb: `%%` prints `%`, any other verb
      reports its operand missing. */
  lemma DirectiveVerbOnly(t: string)
    requires |t| > 0 && !IsFlag(t[0]) && !IsDigit(t[0])
    requires t[0] != '[' && t[0] != '*' && t[0] != '.'
    ensures Directive(t) == (if t[0] == '%' then "%" else "%!" + [t[0]] + "(MISSING)", 1)
  {
    assert SkipFlags(t, 0) == 0;
    assert ArgNumber(t, 0) == Index(0, false, false);
    assert ParseNum(t, 0, |t|).next == 0;
    assert Width(t, Index(0, false, false)) == Part("", 0, false, false);
    assert Precision(t, Part("", 0, false, false)) == Part("", 0, false, false);
    assert ("" + "") + (if t[0] == '%' then "%" else "%!" + [t[0]] + "(MISSING)")
      == (if t[0] == '%' then "%" else "%!" + [t[0]] + "(MISSING)");
  }

  /** A `%` at the end of the format has no verb. */
  lemma DirectiveEmpty()
    ensures Directive("") == ("%!(NOVERB)", 0)
  {
    assert SkipFlags("", 0) == 0;
    assert ArgNumber("", 0) == Index(0, false, false);
    assert Width("", Index(0, false, false)) == Part("", 0, false, false);
    assert Precision("", Part("", 0, false, false)) == Part("", 0, false, false);
    assert ("" + "") + "%!(NOVERB)" == "%!(NOVERB)";
  }

  /** `[d]` with one digit before a bare verb: the index names an operand
      that does not exist. */
  lemma DirectiveBadIndex(t: string)
    requires |t| >= 4 && t[0] == '[' && IsDigit(t[1]) && t[2] == ']' && IsBareVerb(t[3])
    ensures Directive(t) == ("%!" + [t[3]] + "(BADINDEX)", 4)
  {
    assert SkipFlags(t, 0) == 0;
    assert FindClose(t[0..], 1) == Some(2);
    assert ParseDigits(t[0..], 2, 2, t[1] as int - '0' as int, true).next == 2;
    assert ParseNum(t[0..], 1, 2).present && ParseNum(t[0..], 1, 2).next == 2;
    assert ArgNumber(t, 0) == Index(3, true, true);
    assert ParseNum(t, 3, |t|).next == 3;
    assert Width(t, Index(3, true, true)) == Part("", 3, true, true);
    assert Precision(t, Part("", 3, true, true)) == Part("", 3, true, true);
    assert ("" + "") + ("%!" + [t[3]] + "(BADINDEX)") == "%!" + [t[3]] + "(BADINDEX)";
  }

  /** A `*` width before a bare verb. */
  lemma DirectiveBadWidth(t: string)
    requires |t| >= 2 && t[0] == '*' && IsBareVerb(t[1])
    ensures Directive(t) == ("%!(BADWIDTH)%!" + [t[1]] + "(MISSING)", 2)
  {
    assert SkipFlags(t, 0) == 0;
    assert ArgNumber(t, 0) == Index(0, false, false);
    assert Width(t, Index(0, false, false)) == Part("%!(BADWIDTH)", 1, false, false);
    assert Precision(t, Part("%!(BADWIDTH)", 1, false, false)) == Part("", 1, false, false);
    assert ArgNumber(t, 1) == Index(1, false, false);
    assert ("%!(BADWIDTH)" + "") + ("%!" + [t[1]] + "(MISSING)") == "%!(BADWIDTH)%!" + [t[1]] + "(MISSING)";
  }

  /** A `.*` precision before a bare verb. */
  lemma DirectiveBadPrecision(t: string)
    requires |t| >= 3 && t[0] == '.' && t[1] == '*' && IsBareVerb(t[2])
    ensures Directive(t) == ("%!(BADPREC)%!" + [t[2]] + "(MISSING)", 3)
  {
    assert SkipFlags(t, 0) == 0;
    assert ArgNumber(t, 0) == Index(0, false, false);
    assert ParseNum(t, 0, |t|).next == 0;
    assert Width(t, Index(0, false, false)) == Part("", 0, false, false);
    assert ArgNumber(t, 1) == Index(1, false, false);
    assert Precision(t, Part("", 0, false, false)) == Part("%!(BADPREC)", 2, false, false);
    assert ArgNumber(t, 2) == Index(2, false, false);
    assert ("" + "%!(BADPREC)") + ("%!" + [t[2]] + "(MISSING)") == "%!(BADPREC)%!" + [t[2]] + "(MISSING)";
  }

  /** One bare directive amid plain text prints `%!<verb>(MISSING)` in its
      place; the text around it is copied. */
  lemma SprintfOneVerb(pre: string, v: char, post: string)
    requires '%' !in pre && '%' !in post && IsBareVerb(v)
    ensures Sprintf(pre + ['%', v] + post) == pre + ("%!" + [v] + "(MISSING)") + post
  {
    var t := [v] + post;
    assert pre + ['%', v] + post == pre + ['%'] + t;
    assert Sprintf(pre + ['%'] + t) == pre + ("%!" + [v] + "(MISSING)") + post by {
      assert t[0] == v && t[1..] == post;
      DirectiveVerbOnly(t);
      SprintfAround(pre, t, "%!" + [v] + "(MISSING)", 1);
    }
  }

  /** `%%` prints one `%`. */
  lemma SprintfPercent(pre: string, post: string)
    requires '%' !in pre && '%' !in post
    ensures Sprintf(pre + "%%" + post) == pre + "%" + post
  {
    var t := ['%'] + post;
    assert pre + "%%" + post == pre + ['%'] + t;
    assert Sprintf(pre + ['%'] + t) == pre + "%" + post by {
      assert t[0] == '%' && t[1..] == post;
      DirectiveVerbOnly(t);
      SprintfAround(pre, t, "%", 1);
    }
  }

  /** A `%` at the end of the format prints `%!(NOVERB)`. */
  lemma SprintfNoVerb(pre: string)
    requires '%' !in pre
    ensures Sprintf(pre + "%") == pre + "%!(NOVERB)"
  {
    DirectiveEmpty();
    assert pre + "%" == pre + ['%'] + "";
    SprintfAround(pre, "", "%!(NOVERB)", 0);
  }

  /** An argument index names an operand that does not exist. */
  lemma SprintfBadIndex(pre: string, d: char, v: char, post: string)
    requires '%' !in pre && '%' !in post && IsDigit(d) && IsBareVerb(v)
    ensures Sprintf(pre + ['%', '[', d, ']', v] + post) == pre + ("%!" + [v] + "(BADINDEX)") + post
  {
    var t := ['[', d, ']', v] + post;
    assert pre + ['%', '[', d, ']', v] + post == pre + ['%'] + t by {
      assert ['%', '[', d, ']', v] + post == ['%'] + t;
    }
    assert Sprintf(pre + ['%'] + t) == pre + ("%!" + [v] + "(BADINDEX)") + post by {
      assert t[0] == '[' && t[1] == d && t[2] == ']' && t[3] == v && t[4..] == post;
      DirectiveBadIndex(t);
      SprintfAround(pre, t, "%!" + [v] + "(BADINDEX)", 4);
    }
  }

  /** A `*` width has no operand to take its value from. */
  lemma SprintfBadWidth(pre: string, v: char, post: string)
    requires '%' !in pre && '%' !in post && IsBareVerb(v)
    ensures Sprintf(pre + ['%', '*', v] + post) == pre + ("%!(BADWIDTH)%!" + [v] + "(MISSING)") + post
  {
    var t := ['*', v] + post;
    assert pre + ['%', '*', v] + post == pre + ['%'] + t by {
      assert ['%', '*', v] + post == ['%'] + t;
    }
    assert Sprintf(pre + ['%'] + t) == pre + ("%!(BADWIDTH)%!" + [v] + "(MISSING)") + post by {
      assert t[0] == '*' && t[1] == v && t[2..] == post;
      DirectiveBadWidth(t);
      SprintfAround(pre, t, "%!(BADWIDTH)%!" + [v] + "(MISSING)", 2);
    }
  }

  /** A `*` precision has no operand to take its value from. */
  lemma SprintfBadPrecision(pre: string, v: char, post: string)
    requires '%' !in pre && '%' !in post && IsBareVerb(v)
    ensures Sprintf(pre + ['%', '.', '*', v] + post) == pre + ("%!(BADPREC)%!" + [v] + "(MISSING)") + post
  {
    var t := ['.', '*', v] + post;
    assert pre + ['%', '.', '*', v] + post == pre + ['%'] + t by {
      assert ['%', '.', '*', v] + post == ['%'] + t;
    }
    assert Sprintf(pre + ['%'] + t) == pre + ("%!(BADPREC)%!" + [v] + "(MISSING)") + post by {
      assert t[0] == '.' && t[1] == '*' && t[2] == v && t[3..] == post;
      DirectiveBadPrecision(t);
      SprintfAround(pre, t, "%!(BADPREC)%!" + [v] + "(MISSING)", 3);
    }
  }
}
