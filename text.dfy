/** Text helpers with the exact semantics of the Rust standard-library string
    operations the core relies on: `str::lines`, `[&str]::join`, `str::trim`,
    and decimal formatting of integers (`format!("{}", n)`).

    Text is `seq<char>`, one `char` per byte of the original UTF-8 text. */
module Text {

  /** Removes one trailing carriage return, if there is one. */
  function StripCr(line: string): string
  {
    if |line| > 0 && line[|line| - 1] == '\r' then line[..|line| - 1] else line
  }

  /** Rust `str::lines`: splits at every `\n`; a line that was terminated by `\n`
      also loses one trailing `\r`; the text after the last `\n` is a line only
      when it is non-empty, so a trailing newline yields no empty final line. */
  function Lines(s: string): (r: seq<string>)
    ensures r == [] <==> s == []
    ensures forall i :: 0 <= i < |r| ==> '\n' !in r[i]
  {
    LinesFromShape(s, "");
    LinesFrom(s, "")
  }

  /** `Lines` of `s` when the characters in `pending` (no newline among them)
      have already been read as the beginning of the current line. */
  function LinesFrom(s: string, pending: string): seq<string>
  {
    if s == [] then (if pending == [] then [] else [pending])
    else if s[0] == '\n' then [StripCr(pending)] + LinesFrom(s[1..], "")
    else LinesFrom(s[1..], pending + [s[0]])
  }

  /** Rust `[&str]::join(sep)`: the parts in order, with one separator
      between neighbours. */
  function Join(parts: seq<string>, sep: string): (r: string)
    ensures parts != [] ==> |r| == TotalLength(parts) + (|parts| - 1) * |sep|
    ensures parts != [] ==> r[..|parts[0]|] == parts[0]
  {
    if parts == [] then ""
    else if |parts| == 1 then parts[0]
    else parts[0] + sep + Join(parts[1..], sep)
  }

  /** The number of characters in all the parts together. */
  function TotalLength(parts: seq<string>): nat
  {
    if parts == [] then 0 else |parts[0]| + TotalLength(parts[1..])
  }

  /** `LinesFrom` yields nothing exactly for empty input with nothing
      pending, and no line it yields holds a newline. */
  lemma {:induction false} LinesFromShape(s: string, pending: string)
    requires '\n' !in pending
    ensures LinesFrom(s, pending) == [] <==> s == [] && pending == []
    ensures forall i :: 0 <= i < |LinesFrom(s, pending)| ==> '\n' !in LinesFrom(s, pending)[i]
    decreases |s|
  {
    if s == [] {
    } else if s[0] == '\n' {
      LinesFromShape(s[1..], "");
      assert '\n' !in StripCr(pending);
    } else {
      LinesFromShape(s[1..], pending + [s[0]]);
    }
  }

  /** Every line followed by its newline: the text the lines describe. */
  function Unlines(lines: seq<string>): string
  {
    if lines == [] then "" else lines[0] + "\n" + Unlines(lines[1..])
  }

  /** Offset of the first character of line `k`, counting one newline after
      each earlier line: the sum of `|line| + 1` over the lines before `k`. */
  function LineStart(lines: seq<string>, k: nat): nat
    requires k <= |lines|
  {
    if k == 0 then 0 else LineStart(lines, k - 1) + |lines[k - 1]| + 1
  }

  /** What `Unlines(Lines(s))` adds to `s`: a newline exactly when the last line
      of `s` was not terminated. */
  function MissingNewline(s: string): string
  {
    if s != [] && s[|s| - 1] != '\n' then "\n" else ""
  }

  lemma {:induction false} UnlinesAppend(a: seq<string>, b: seq<string>)
    ensures Unlines(a + b) == Unlines(a) + Unlines(b)
  {
    if a != [] {
      assert (a + b)[0] == a[0];
      assert (a + b)[1..] == a[1..] + b;
      UnlinesAppend(a[1..], b);
    } else {
      assert a + b == b;
    }
  }

  lemma {:induction false} UnlinesLength(lines: seq<string>, k: nat)
    requires k <= |lines|
    ensures |Unlines(lines[..k])| == LineStart(lines, k)
  {
    if k > 0 {
      UnlinesLength(lines, k - 1);
      assert lines[..k] == lines[..k - 1] + [lines[k - 1]];
      UnlinesAppend(lines[..k - 1], [lines[k - 1]]);
    }
  }

  lemma UnlinesCons(line: string, rest: seq<string>)
    ensures Unlines([line] + rest) == line + "\n" + Unlines(rest)
  {
    assert ([line] + rest)[1..] == rest;
  }

  lemma NoCrInTail(s: string)
    requires '\r' !in s && s != []
    ensures '\r' !in s[1..]
  {
    forall j | 0 <= j < |s[1..]| ensures s[1..][j] != '\r' {
      assert s[1..][j] == s[j + 1] && s[j + 1] in s;
    }
  }

  lemma NoCharInSnoc(s: string, c: char, d: char)
    requires c !in s && c != d
    ensures c !in s + [d]
  {
    forall j | 0 <= j < |s + [d]| ensures (s + [d])[j] != c {
      if j < |s| { assert s[j] in s; }
    }
  }

  lemma {:induction false} UnlinesOfLinesFrom(s: string, pending: string)
    requires '\r' !in s && '\r' !in pending && '\n' !in pending
    ensures Unlines(LinesFrom(s, pending)) == pending + s + MissingNewline(pending + s)
    decreases |s|
  {
    if s == [] {
      LastLineBack(pending);
    } else if s[0] == '\n' {
      NoCrInTail(s);
      UnlinesOfLinesFrom(s[1..], "");
      NewlineBack(s, pending);
    } else {
      NoCrInTail(s);
      assert s[0] in s;
      NoCharInSnoc(pending, '\r', s[0]);
      NoCharInSnoc(pending, '\n', s[0]);
      UnlinesOfLinesFrom(s[1..], pending + [s[0]]);
      assert pending + [s[0]] + s[1..] == pending + s;
    }
  }

  lemma LastLineBack(pending: string)
    requires '\n' !in pending
    ensures Unlines(LinesFrom("", pending)) == pending + "" + MissingNewline(pending + "")
  {
    assert pending + "" == pending;
    if pending != [] {
      UnlinesCons(pending, []);
      assert pending[|pending| - 1] in pending;
    }
  }

  lemma NewlineBack(s: string, pending: string)
    requires s != [] && s[0] == '\n'
    requires '\r' !in pending
    requires Unlines(LinesFrom(s[1..], "")) == "" + s[1..] + MissingNewline("" + s[1..])
    ensures Unlines(LinesFrom(s, pending)) == pending + s + MissingNewline(pending + s)
  {
    assert StripCr(pending) == pending by {
      if pending != [] { assert pending[|pending| - 1] in pending; }
    }
    assert LinesFrom(s, pending) == [pending] + LinesFrom(s[1..], "");
    UnlinesCons(pending, LinesFrom(s[1..], ""));
    NewlineAssembled(s, pending, Unlines(LinesFrom(s, pending)), Unlines(LinesFrom(s[1..], "")));
  }

  lemma NewlineAssembled(s: string, pending: string, whole: string, rest: string)
    requires s != [] && s[0] == '\n'
    requires rest == "" + s[1..] + MissingNewline("" + s[1..])
    requires whole == pending + "\n" + rest
    ensures whole == pending + s + MissingNewline(pending + s)
  {
    var t := s[1..];
    assert "" + t == t;
    MissingNewlineTail(pending, s);
    assert s == "\n" + t;
    Assoc(pending, "\n", t, MissingNewline(t));
  }

  /** A text ending in `"\n" + t` misses a newline exactly when `t` does. */
  lemma MissingNewlineTail(p: string, s: string)
    requires s != [] && s[0] == '\n'
    ensures MissingNewline(p + s) == MissingNewline(s[1..])
  {
    var u := p + s;
    assert u[|u| - 1] == s[|s| - 1];
    if |s| > 1 {
      assert s[1..][|s| - 2] == s[|s| - 1];
    }
  }

  /** For text without carriage returns, `Lines` loses nothing but the final
      newline: putting every line back with its newline gives the text again,
      plus a newline when the last line was unterminated. */
  lemma UnlinesOfLines(s: string)
    requires '\r' !in s
    ensures Unlines(Lines(s)) == s + MissingNewline(s)
  {
    UnlinesOfLinesFrom(s, "");
    assert "" + s == s;
  }

  /** A line ended by a newline becomes one element of `Lines`, without its
      trailing carriage return. */
  lemma {:induction false} LinesFromLine(a: string, b: string, pending: string)
    requires '\n' !in a
    ensures LinesFrom(a + "\n" + b, pending) == [StripCr(pending + a)] + LinesFrom(b, "")
    decreases |a|
  {
    if a == [] {
      assert a + "\n" + b == "\n" + b && ("\n" + b)[1..] == b;
      assert pending + a == pending;
    } else {
      assert a[0] in a;
      assert (a + "\n" + b)[0] == a[0];
      assert (a + "\n" + b)[1..] == a[1..] + "\n" + b;
      LinesFromLine(a[1..], b, pending + [a[0]]);
      assert pending + [a[0]] + a[1..] == pending + a;
    }
  }

  /** Non-empty text after the last newline is the last element of `Lines`. */
  lemma {:induction false} LinesFromLast(a: string, pending: string)
    requires '\n' !in a && pending + a != ""
    ensures LinesFrom(a, pending) == [pending + a]
    decreases |a|
  {
    if a == [] {
      assert pending + a == pending;
    } else {
      assert a[0] in a;
      LinesFromLast(a[1..], pending + [a[0]]);
      assert pending + [a[0]] + a[1..] == pending + a;
    }
  }

  lemma UnlinesSplit(ls: seq<string>, k: nat)
    requires k <= |ls|
    ensures Unlines(ls) == Unlines(ls[..k]) + Unlines(ls[k..])
  {
    SplitAt(ls, k);
    UnlinesJoin(ls[..k], ls[k..], ls);
  }

  lemma UnlinesJoin(a: seq<string>, b: seq<string>, c: seq<string>)
    requires a + b == c
    ensures Unlines(c) == Unlines(a) + Unlines(b)
  {
    UnlinesAppend(a, b);
  }

  lemma UnlinesAt(ls: seq<string>, k: nat)
    requires k < |ls|
    ensures Unlines(ls[k..]) == ls[k] + "\n" + Unlines(ls[k + 1..])
  {
    assert ls[k..][1..] == ls[k + 1..];
  }

  /** Unlines splits around line `k`. */
  lemma UnlinesAround(ls: seq<string>, k: nat)
    requires k < |ls|
    ensures LineStart(ls, k) + |ls[k]| < |Unlines(ls)|
    ensures Unlines(ls) == Unlines(ls[..k]) + ls[k] + "\n" + Unlines(ls[k + 1..])
  {
    UnlinesSplit(ls, k);
    UnlinesAt(ls, k);
    ConcatAround(Unlines(ls[..k]), Unlines(ls[k..]), ls[k], Unlines(ls[k + 1..]));
    UnlinesLength(ls, k);
  }

  /** The text before line `k > 0` ends with a newline. */
  lemma UnlinesBeforeEndsWithNewline(ls: seq<string>, k: nat)
    requires 0 < k <= |ls|
    ensures Unlines(ls[..k]) != [] && Unlines(ls[..k])[|Unlines(ls[..k])| - 1] == '\n'
  {
    assert ls[..k] == ls[..k - 1] + [ls[k - 1]];
    UnlinesAppend(ls[..k - 1], [ls[k - 1]]);
    UnlinesCons(ls[k - 1], []);
  }

  /** Line geometry for any line list that gives back the text `s`. */
  lemma LineInUnlined(s: string, ls: seq<string>, k: nat)
    requires Unlines(ls) == s + MissingNewline(s)
    requires k < |ls|
    ensures LineStart(ls, k) + |ls[k]| <= |s|
    ensures s[LineStart(ls, k)..LineStart(ls, k) + |ls[k]|] == ls[k]
    ensures k > 0 ==> s[LineStart(ls, k) - 1] == '\n'
  {
    UnlinesAround(ls, k);
    UnlinesLength(ls, k);
    if k > 0 {
      UnlinesBeforeEndsWithNewline(ls, k);
    }
    PieceInPrefix(Unlines(ls), s, MissingNewline(s), Unlines(ls[..k]), ls[k], Unlines(ls[k + 1..]));
  }

  /** A piece `L` followed by a newline inside `u = s + m`, where `m` is at
      most one character, lies inside `s`. */
  lemma PieceInPrefix(u: string, s: string, m: string, a: string, l: string, r: string)
    requires u == s + m && |m| <= 1
    requires u == a + l + "\n" + r
    ensures |a| + |l| <= |s|
    ensures s[|a|..|a| + |l|] == l
    ensures a != [] && a[|a| - 1] == '\n' ==> s[|a| - 1] == '\n'
  {
    assert u[|a| + |l|] == '\n';
    assert u[..|s|] == s;
    assert u[|a|..|a| + |l|] == l;
    if a != [] {
      assert u[|a| - 1] == a[|a| - 1];
    }
  }

  /** Line `k` of a text without carriage returns sits in the text at offset
      `LineStart(Lines(s), k)`, and the line before it ends with a newline. */
  lemma LineInText(s: string, k: nat)
    requires '\r' !in s
    requires k < |Lines(s)|
    ensures LineStart(Lines(s), k) + |Lines(s)[k]| <= |s|
    ensures s[LineStart(Lines(s), k)..LineStart(Lines(s), k) + |Lines(s)[k]|] == Lines(s)[k]
    ensures k > 0 ==> s[LineStart(Lines(s), k) - 1] == '\n'
  {
    UnlinesOfLines(s);
    LineInUnlined(s, Lines(s), k);
  }

  /** Past the last line the line start reaches the end of the text. */
  lemma LineStartPastText(s: string)
    requires '\r' !in s
    ensures LineStart(Lines(s), |Lines(s)|) >= |s|
  {
    var ls := Lines(s);
    UnlinesOfLines(s);
    UnlinesLength(ls, |ls|);
    assert ls[..|ls|] == ls;
  }

  lemma {:induction false} JoinNewline(parts: seq<string>)
    requires parts != []
    ensures Join(parts, "\n") + "\n" == Unlines(parts)
  {
    if |parts| > 1 {
      JoinNewline(parts[1..]);
    } else {
      UnlinesCons(parts[0], []);
      assert parts == [parts[0]] + [];
    }
  }

  lemma UnlinesPrefix(ls: seq<string>, a: nat, b: nat)
    requires a <= b <= |ls|
    ensures Unlines(ls[..b]) == Unlines(ls[..a]) + Unlines(ls[a..b])
  {
    var front := ls[..b];
    UnlinesSplit(front, a);
    assert front[..a] == ls[..a];
    assert front[a..] == ls[a..b];
  }

  lemma UnlinesThree(ls: seq<string>, a: nat, b: nat)
    requires a <= b <= |ls|
    ensures Unlines(ls) == Unlines(ls[..a]) + Unlines(ls[a..b]) + Unlines(ls[b..])
  {
    UnlinesSplit(ls, b);
    UnlinesPrefix(ls, a, b);
  }

  /** The middle part `m` of `u == p + m + r`, less its final newline, lies in the
      text `s` that `u` extends by at most one character. */
  lemma MiddleInText(s: string, u: string, p: string, m: string, r: string, j: string)
    requires u == s + MissingNewline(s)
    requires u == p + m + r
    requires j + "\n" == m
    ensures |p| < |p| + |m| <= |s| + 1
    ensures j == s[|p|..|p| + |m| - 1]
  {
    assert u[|p|..|p| + |m|] == m;
    assert m[..|m| - 1] == j;
    assert u[|p|..|p| + |m| - 1] == j;
  }

  /** Joined-line geometry for any line list that gives back the text `s`. */
  lemma JoinedInUnlined(s: string, ls: seq<string>, a: nat, b: nat)
    requires Unlines(ls) == s + MissingNewline(s)
    requires a < b <= |ls|
    ensures LineStart(ls, a) < LineStart(ls, b) <= |s| + 1
    ensures Join(ls[a..b], "\n") == s[LineStart(ls, a)..LineStart(ls, b) - 1]
  {
    UnlinesThree(ls, a, b);
    UnlinesPrefix(ls, a, b);
    UnlinesLength(ls, a);
    UnlinesLength(ls, b);
    JoinNewline(ls[a..b]);
    MiddleInText(s, Unlines(ls), Unlines(ls[..a]), Unlines(ls[a..b]), Unlines(ls[b..]), Join(ls[a..b], "\n"));
  }

  /** Lines `a` to `b - 1` of a text without carriage returns, joined with
      newlines, are exactly the stretch of the text from the start of line `a`
      to the end of line `b - 1`. */
  lemma JoinedLinesInText(s: string, a: nat, b: nat)
    requires '\r' !in s
    requires a < b <= |Lines(s)|
    ensures LineStart(Lines(s), a) < LineStart(Lines(s), b) <= |s| + 1
    ensures Join(Lines(s)[a..b], "\n") == s[LineStart(Lines(s), a)..LineStart(Lines(s), b) - 1]
  {
    UnlinesOfLines(s);
    JoinedInUnlined(s, Lines(s), a, b);
  }

  /** Rust `char::is_whitespace`: the Unicode White_Space property. */
  predicate IsWhitespace(c: char)
  {
    var n := c as int;
    (9 <= n <= 13) || n == 0x20 || n == 0x85 || n == 0xA0 || n == 0x1680
    || (0x2000 <= n <= 0x200A) || n == 0x2028 || n == 0x2029 || n == 0x202F
    || n == 0x205F || n == 0x3000
  }

  function TrimStart(s: string): string
  {
    if s != [] && IsWhitespace(s[0]) then TrimStart(s[1..]) else s
  }

  function TrimEnd(s: string): string
  {
    if s != [] && IsWhitespace(s[|s| - 1]) then TrimEnd(s[..|s| - 1]) else s
  }

  /** Rust `str::trim`. */
  function Trim(s: string): string
  {
    TrimStart(TrimEnd(s))
  }

  predicate AllWhitespace(s: string)
  {
    forall i :: 0 <= i < |s| ==> IsWhitespace(s[i])
  }

  lemma {:induction false} TrimEndAllWhitespace(s: string)
    ensures TrimEnd(s) == "" <==> AllWhitespace(s)
  {
    if s != [] && IsWhitespace(s[|s| - 1]) {
      TrimEndAllWhitespace(s[..|s| - 1]);
      assert AllWhitespace(s) <==> AllWhitespace(s[..|s| - 1]) by {
        if AllWhitespace(s[..|s| - 1]) {
          forall i | 0 <= i < |s| ensures IsWhitespace(s[i]) {
            if i < |s| - 1 { assert s[..|s| - 1][i] == s[i]; }
          }
        }
      }
    }
  }

  lemma {:induction false} TrimStartAllWhitespace(s: string)
    ensures TrimStart(s) == "" <==> AllWhitespace(s)
  {
    if s != [] && IsWhitespace(s[0]) {
      TrimStartAllWhitespace(s[1..]);
      assert AllWhitespace(s) <==> AllWhitespace(s[1..]) by {
        if AllWhitespace(s[1..]) {
          forall i | 0 <= i < |s| ensures IsWhitespace(s[i]) {
            if i > 0 { assert s[1..][i - 1] == s[i]; }
          }
        }
      }
    }
  }

  /** `s.trim().is_empty()` holds exactly when every character of `s` is white space. */
  lemma TrimEmptyIff(s: string)
    ensures Trim(s) == "" <==> AllWhitespace(s)
  {
    TrimEndAllWhitespace(s);
    TrimStartAllWhitespace(TrimEnd(s));
    if AllWhitespace(s) {
      assert TrimEnd(s) == "";
    } else {
      assert TrimEnd(s) != "";
      assert !AllWhitespace(TrimEnd(s)) by {
        var t := TrimEnd(s);
        assert !IsWhitespace(t[|t| - 1]) by { TrimEndLastChar(s); }
      }
    }
  }

  lemma {:induction false} TrimEndLastChar(s: string)
    requires TrimEnd(s) != ""
    ensures !IsWhitespace(TrimEnd(s)[|TrimEnd(s)| - 1])
  {
    if s != [] && IsWhitespace(s[|s| - 1]) {
      TrimEndLastChar(s[..|s| - 1]);
    }
  }

  function DigitChar(d: nat): (c: char)
    requires d < 10
    ensures '0' <= c <= '9'
  {
    (48 + d) as char
  }

  /** Decimal notation of `n`, as `format!("{}", n)` writes it. */
  function Decimal(n: nat): (s: string)
    ensures |s| >= 1
    ensures forall i :: 0 <= i < |s| ==> '0' <= s[i] <= '9'
    ensures n > 0 ==> s[0] != '0'
  {
    if n < 10 then [DigitChar(n)] else Decimal(n / 10) + [DigitChar(n % 10)]
  }

  /** The number a string of decimal digits denotes. */
  function DigitsValue(s: string): nat
    requires forall i :: 0 <= i < |s| ==> '0' <= s[i] <= '9'
  {
    if s == [] then 0 else DigitsValue(s[..|s| - 1]) * 10 + (s[|s| - 1] as int - 48)
  }

  /** `Decimal` loses no information: reading the digits back gives `n`. */
  lemma {:induction false} DecimalRoundTrip(n: nat)
    ensures DigitsValue(Decimal(n)) == n
  {
    if n >= 10 {
      DecimalRoundTrip(n / 10);
      var s := Decimal(n);
      assert s[..|s| - 1] == Decimal(n / 10);
    }
  }

  /** `s` ends with `t`. */
  predicate EndsWith(s: string, t: string)
  {
    |t| <= |s| && s[|s| - |t|..] == t
  }

  /** `t` occurs in `s` at offset `at`. */
  predicate OccursAt(s: string, t: string, at: nat)
  {
    at + |t| <= |s| && s[at..at + |t|] == t
  }

  // Sequence-algebra steps (associativity, slicing) written out as lemmas
  // because the verifier does not find them unaided in large contexts. They
  // state nothing about the program.
  lemma Assoc(a: string, b: string, c: string, d: string)
    ensures a + b + (c + d) == a + (b + c) + d
  {
  }

  lemma SplitAt<T>(s: seq<T>, k: nat)
    requires k <= |s|
    ensures s[..k] + s[k..] == s
  {
  }

  lemma TakeSnoc<T>(s: seq<T>, k: nat)
    requires k < |s|
    ensures s[..k + 1] == s[..k] + [s[k]]
  {
  }

  lemma ConcatAround(p: string, t: string, l: string, r: string)
    requires t == l + "\n" + r
    ensures p + t == p + l + "\n" + r
  {
  }
}
