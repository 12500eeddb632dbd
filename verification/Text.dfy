/** Options, results and the few string operations of Go's standard library that the
    modelled code leans on. Strings are sequences of Unicode characters: every character
    the code tests for is ASCII, so bytes and characters cut a string at the same places. */
module Text {

  datatype Option<+T> = None | Some(value: T)

  datatype Result<+T, +E> = Ok(value: T) | Err(error: E)

  predicate Contains(s: string, set0: set<char>) {
    exists i :: 0 <= i < |s| && s[i] in set0
  }

  predicate HasPrefix(s: string, prefix: string) {
    |prefix| <= |s| && s[..|prefix|] == prefix
  }

  lemma {:induction false} Assoc<T>(a: seq<T>, b: seq<T>, c: seq<T>)
    ensures a + b + c == a + (b + c)
  {
  }

  lemma {:induction false} DropWithin<T>(a: seq<T>, b: seq<T>, k: nat)
    requires k <= |a|
    ensures (a + b)[k..] == a[k..] + b
  {
  }

  lemma {:induction false} DropPast<T>(a: seq<T>, b: seq<T>, k: nat)
    requires k <= |b|
    ensures (a + b)[|a| + k..] == b[k..]
  {
  }

  /** `strings.Join`. */
  function Join(parts: seq<string>, sep: string): string {
    if parts == [] then ""
    else if |parts| == 1 then parts[0]
    else parts[0] + sep + Join(parts[1..], sep)
  }

  lemma {:induction false} JoinSnoc(parts: seq<string>, last: string, sep: string)
    requires parts != []
    ensures Join(parts + [last], sep) == Join(parts, sep) + sep + last
  {
    if |parts| == 1 {
      assert parts + [last] == [parts[0], last];
      assert [parts[0], last][1..] == [last];
    } else {
      JoinSnoc(parts[1..], last, sep);
      assert (parts + [last])[1..] == parts[1..] + [last];
    }
  }

  /** `strings.Split` on a one-character separator. */
  function Split(s: string, sep: char): (parts: seq<string>)
    ensures |parts| >= 1
  {
    if s == "" then [""]
    else
      var tail := Split(s[1..], sep);
      if s[0] == sep then [""] + tail else [[s[0]] + tail[0]] + tail[1..]
  }

  /** No piece of a split holds the separator, and joining the pieces gives the string back. */
  lemma {:induction false} SplitPieces(s: string, sep: char)
    ensures forall k :: 0 <= k < |Split(s, sep)| ==> sep !in Split(s, sep)[k]
    ensures Join(Split(s, sep), [sep]) == s
  {
    if s != "" {
      SplitPieces(s[1..], sep);
      var tail := Split(s[1..], sep);
      if s[0] != sep && |tail| > 1 {
        assert ([[s[0]] + tail[0]] + tail[1..])[1..] == tail[1..];
      }
      if s[0] == sep {
        assert ([""] + tail)[1..] == tail;
      }
    }
  }

  lemma {:induction false} SplitCons(c: char, s: string, sep: char)
    ensures Split([c] + s, sep)
         == if c == sep then [""] + Split(s, sep) else [[c] + Split(s, sep)[0]] + Split(s, sep)[1..]
  {
    assert ([c] + s)[1..] == s;
  }

  /** A separator cuts the split in two. */
  lemma {:induction false} SplitConcat(a: string, b: string, sep: char)
    ensures Split(a + [sep] + b, sep) == Split(a, sep) + Split(b, sep)
  {
    if a == "" {
      assert a + [sep] + b == [sep] + b;
      SplitCons(sep, b, sep);
    } else {
      var rest := a[1..] + [sep] + b;
      SplitConcat(a[1..], b, sep);
      assert a + [sep] + b == [a[0]] + rest;
      SplitCons(a[0], rest, sep);
    }
  }

  lemma {:induction false} SplitWithout(s: string, sep: char)
    requires sep !in s
    ensures Split(s, sep) == [s]
  {
    if s != "" {
      SplitWithout(s[1..], sep);
      assert [s[0]] + s[1..] == s;
    }
  }

  /** Splitting undoes joining when the pieces are free of the separator. */
  lemma {:induction false} SplitJoin(parts: seq<string>, sep: char)
    requires parts != []
    requires forall k :: 0 <= k < |parts| ==> sep !in parts[k]
    ensures Split(Join(parts, [sep]), sep) == parts
  {
    SplitWithout(parts[0], sep);
    if |parts| > 1 {
      SplitJoin(parts[1..], sep);
      SplitConcat(parts[0], Join(parts[1..], [sep]), sep);
    }
  }

  /** `unicode.IsSpace`. */
  predicate IsSpace(c: char) {
    || c == ' ' || ('\t' <= c <= '\r') || c == '\U{85}' || c == '\U{a0}' || c == '\U{1680}'
    || ('\U{2000}' <= c <= '\U{200a}') || c == '\U{2028}' || c == '\U{2029}' || c == '\U{202f}'
    || c == '\U{205f}' || c == '\U{3000}'
  }

  function TrimLeft(s: string): string {
    if s != "" && IsSpace(s[0]) then TrimLeft(s[1..]) else s
  }

  function TrimRight(s: string): string {
    if s != "" && IsSpace(s[|s| - 1]) then TrimRight(s[..|s| - 1]) else s
  }

  /** `strings.TrimSpace`. */
  function TrimSpace(s: string): string {
    TrimRight(TrimLeft(s))
  }

  predicate AllSpace(s: string) {
    forall k :: 0 <= k < |s| ==> IsSpace(s[k])
  }

  /** `t` is what is left of `s` without the blanks at its two ends. */
  ghost predicate Inside(s: string, t: string) {
    && (t == "" || (!IsSpace(t[0]) && !IsSpace(t[|t| - 1])))
    && exists before, after :: AllSpace(before) && AllSpace(after) && s == before + (t + after)
  }

  lemma {:induction false} TrimLeftParts(s: string) returns (before: string)
    ensures AllSpace(before) && s == before + TrimLeft(s)
    ensures TrimLeft(s) != "" ==> !IsSpace(TrimLeft(s)[0])
  {
    if s != "" && IsSpace(s[0]) {
      before := TrimLeftParts(s[1..]);
      assert s == [s[0]] + s[1..];
      Assoc([s[0]], before, TrimLeft(s));
      before := [s[0]] + before;
    } else {
      before := "";
      assert s == "" + s;
    }
  }

  lemma {:induction false} TrimRightParts(s: string) returns (after: string)
    ensures AllSpace(after) && s == TrimRight(s) + after
    ensures TrimRight(s) != "" ==> !IsSpace(TrimRight(s)[|TrimRight(s)| - 1])
  {
    if s != "" && IsSpace(s[|s| - 1]) {
      after := TrimRightParts(s[..|s| - 1]);
      assert s == s[..|s| - 1] + [s[|s| - 1]];
      Assoc(TrimRight(s), after, [s[|s| - 1]]);
      after := after + [s[|s| - 1]];
    } else {
      after := "";
      assert s == s + "";
    }
  }

  lemma {:induction false} TrimLeftIs(before: string, t: string)
    requires AllSpace(before) && (t == "" || !IsSpace(t[0]))
    ensures TrimLeft(before + t) == t
  {
    if before == "" {
      assert before + t == t;
    } else {
      assert (before + t)[1..] == before[1..] + t;
      TrimLeftIs(before[1..], t);
    }
  }

  lemma {:induction false} TrimRightIs(t: string, after: string)
    requires AllSpace(after) && (t == "" || !IsSpace(t[|t| - 1]))
    ensures TrimRight(t + after) == t
  {
    if after == "" {
      assert t + after == t;
    } else {
      assert (t + after)[..|t + after| - 1] == t + after[..|after| - 1];
      TrimRightIs(t, after[..|after| - 1]);
    }
  }

  lemma {:induction false} BlankTrims(s: string)
    requires AllSpace(s)
    ensures TrimLeft(s) == ""
  {
    TrimLeftIs(s, "");
    assert s + "" == s;
  }

  /** Trimming takes the blanks off both ends and nothing else. */
  lemma {:induction false} TrimSpaceExactly(s: string, t: string)
    ensures Inside(s, t) <==> t == TrimSpace(s)
  {
    hide TrimLeft, TrimRight, IsSpace;
    if t == TrimSpace(s) {
      var before := TrimLeftParts(s);
      var after := TrimRightParts(TrimLeft(s));
      assert t != "" ==> t[0] == TrimLeft(s)[0];
      assert s == before + (t + after);
    }
    if before, after :| AllSpace(before) && AllSpace(after) && s == before + (t + after) {
      if Inside(s, t) {
        if t == "" {
          assert "" + after == after;
          BlankTrims(before + after);
          TrimRightIs("", "");
          assert "" + "" == "";
        } else {
          assert (t + after)[0] == t[0];
          TrimLeftIs(before, t + after);
          TrimRightIs(t, after);
        }
      }
    }
  }

  // ------------------------------------------------------------ decimal numerals

  const DIGITS := "0123456789"

  /** `strconv.Itoa` of a natural number. */
  function Decimal(n: nat): (s: string)
    ensures s != ""
    ensures forall k :: 0 <= k < |s| ==> '0' <= s[k] <= '9'
  {
    if n < 10 then [DIGITS[n]] else Decimal(n / 10) + [DIGITS[n % 10]]
  }

  lemma {:induction false} DecimalInjective(m: nat, n: nat)
    requires Decimal(m) == Decimal(n)
    ensures m == n
  {
    DecimalReads(m);
    DecimalReads(n);
  }

  /** The number a row of digits stands for. */
  function Number(s: string): int {
    if s == "" then 0 else 10 * Number(s[..|s| - 1]) + (s[|s| - 1] as int - '0' as int)
  }

  /** A numeral stands for its number, and opens with no zero but the one of zero itself. */
  lemma {:induction false} DecimalReads(n: nat)
    ensures Number(Decimal(n)) == n
    ensures if n == 0 then Decimal(n) == "0" else Decimal(n)[0] != '0'
  {
    assert DIGITS[n % 10] as int - '0' as int == n % 10;
    if n < 10 {
      assert Decimal(n)[..0] == "" && Number("") == 0;
      assert n > 0 ==> DIGITS[n] != '0';
    } else {
      DecimalReads(n / 10);
      assert Decimal(n)[..|Decimal(n)| - 1] == Decimal(n / 10);
    }
  }

  /** A numeral as it is written out: digits, and no needless zero in front. */
  predicate Numeral(s: string, n: int) {
    && s != "" && (forall k :: 0 <= k < |s| ==> '0' <= s[k] <= '9')
    && Number(s) == n && (|s| > 1 ==> s[0] != '0')
  }

  lemma {:induction false} NumberPositive(s: string)
    requires s != "" && s[0] != '0' && forall k :: 0 <= k < |s| ==> '0' <= s[k] <= '9'
    ensures Number(s) > 0
  {
    if |s| > 1 {
      NumberPositive(s[..|s| - 1]);
    } else {
      assert s[..0] == "" && Number(s[..0]) == 0;
    }
  }

  /** A number is written out in one way. */
  lemma {:induction false} DecimalExactly(s: string, n: nat)
    ensures Numeral(s, n) <==> s == Decimal(n)
  {
    DecimalReads(n);
    if Numeral(s, n) {
      var front, digit := s[..|s| - 1], s[|s| - 1] as int - '0' as int;
      assert n == 10 * Number(front) + digit && 0 <= digit < 10;
      assert s == front + [s[|s| - 1]] && DIGITS[digit] == s[|s| - 1] by {
        assert DIGITS[digit] as int == '0' as int + digit;
      }
      if |s| > 1 {
        NumberPositive(front);
        DecimalExactly(front, n / 10);
      } else {
        assert front == "" && Number("") == 0;
      }
    }
    if s == Decimal(n) && n >= 10 {
      DecimalExactly(Decimal(n / 10), n / 10);
    }
  }
}
