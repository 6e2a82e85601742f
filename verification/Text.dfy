/** Text produced by printf-style conversions, and the pieces needed to read it back. */
module Text {

  datatype Option<+T> = None | Some(value: T)

  type Byte = b: int | 0 <= b < 256

  function Min(a: int, b: int): int { if a < b then a else b }

  predicate AllDigits(s: string) { forall i :: 0 <= i < |s| ==> '0' <= s[i] <= '9' }

  /** `%d` / `%lu` of a non-negative number. */
  function Decimal(n: nat): (s: string)
    ensures s != ""
    ensures AllDigits(s)
  {
    if n < 10 then ["0123456789"[n]] else Decimal(n / 10) + ["0123456789"[n % 10]]
  }

  /** `%d` of any number. */
  function Signed(i: int): string {
    if i < 0 then "-" + Decimal(-i) else Decimal(i)
  }

  /** The number a string of decimal digits denotes. */
  function Value(s: string): nat
    requires AllDigits(s)
  {
    if s == "" then 0
    else Value(s[..|s| - 1]) * 10 + (s[|s| - 1] - '0') as nat
  }

  lemma {:induction false} ValueOfDecimal(n: nat)
    ensures Value(Decimal(n)) == n
  {
    if n >= 10 {
      ValueOfDecimal(n / 10);
      assert Decimal(n)[..|Decimal(n)| - 1] == Decimal(n / 10);
    }
  }

  lemma Assoc<T>(a: seq<T>, b: seq<T>, c: seq<T>)
    ensures a + (b + c) == a + b + c
  {
  }

  lemma RestOfConcat<T>(a: seq<T>, b: seq<T>)
    requires a != []
    ensures (a + b)[0] == a[0] && (a + b)[1..] == a[1..] + b
  {
  }

  lemma SplitFirst<T>(s: seq<T>)
    requires s != []
    ensures s == [s[0]] + s[1..]
  {
  }

  /** Taking out an element after the first. */
  lemma TakenOutOfRest<T>(s: seq<T>, i: nat)
    requires i + 1 < |s|
    ensures s[..i + 1] + s[i + 2..] == [s[0]] + (s[1..][..i] + s[1..][i + 1..])
  {
    assert s[..i + 1] == [s[0]] + s[1..][..i] && s[i + 2..] == s[1..][i + 1..];
    Assoc([s[0]], s[1..][..i], s[1..][i + 1..]);
  }

  lemma SplitLast<T>(s: seq<T>)
    requires s != []
    ensures s == s[..|s| - 1] + [s[|s| - 1]]
  {
  }

  /** Newline-terminated lines, concatenated. */
  function Unlines(lines: seq<string>): string {
    if lines == [] then "" else lines[0] + "\n" + Unlines(lines[1..])
  }

  /** The newline-terminated lines of a text; an unterminated tail is dropped. */
  function Lines(s: string): seq<string> {
    var k := FirstNewline(s);
    if k == |s| then [] else [s[..k]] + Lines(s[k + 1..])
  }

  function FirstNewline(s: string): (k: nat)
    ensures k <= |s|
    ensures k < |s| ==> s[k] == '\n'
    ensures '\n' !in s[..k]
  {
    if s == "" || s[0] == '\n' then 0 else 1 + FirstNewline(s[1..])
  }

  lemma {:induction false} FirstNewlineAfter(l: string, rest: string)
    requires '\n' !in l
    ensures FirstNewline(l + "\n" + rest) == |l|
  {
    if l != "" {
      FirstNewlineAfter(l[1..], rest);
      assert (l + "\n" + rest)[1..] == l[1..] + "\n" + rest;
      assert l[0] in l;
    }
  }

  lemma LinesCons(l: string, rest: string)
    requires '\n' !in l
    ensures Lines(l + "\n" + rest) == [l] + Lines(rest)
  {
    var s := l + "\n" + rest;
    FirstNewlineAfter(l, rest);
    assert s[..|l|] == l;
    assert s[|l| + 1..] == rest;
  }

  lemma {:induction false} LinesOfUnlines(lines: seq<string>)
    requires forall i :: 0 <= i < |lines| ==> '\n' !in lines[i]
    ensures Lines(Unlines(lines)) == lines
  {
    if lines != [] {
      LinesCons(lines[0], Unlines(lines[1..]));
      LinesOfUnlines(lines[1..]);
    }
  }

  lemma {:induction false} UnlinesConcat(a: seq<string>, b: seq<string>)
    ensures Unlines(a + b) == Unlines(a) + Unlines(b)
  {
    if a == [] {
      assert a + b == b;
    } else {
      assert (a + b)[1..] == a[1..] + b;
      UnlinesConcat(a[1..], b);
    }
  }

  predicate Terminated(s: string) { s == "" || s[|s| - 1] == '\n' }

  lemma {:induction false} UnlinesTerminated(lines: seq<string>)
    ensures Terminated(Unlines(lines))
  {
    if lines != [] { UnlinesTerminated(lines[1..]); }
  }

  /** Such a text is a first line and another such text. */
  lemma FirstLine(s: string) returns (l: string, rest: string)
    requires Terminated(s) && s != ""
    ensures '\n' !in l && s == l + "\n" + rest && Terminated(rest)
  {
    var k := FirstNewline(s);
    assert k < |s| by {
      assert s[|s| - 1] in s;
      assert s[..|s|] == s;
    }
    l, rest := s[..k], s[k + 1..];
  }

  /** It can be read on its own. */
  lemma {:induction false} LinesConcat(a: string, b: string)
    requires Terminated(a)
    ensures Lines(a + b) == Lines(a) + Lines(b)
    decreases |a|
  {
    if a == "" {
      assert a + b == b;
    } else {
      var l, rest := FirstLine(a);
      LinesCons(l, rest);
      LinesCons(l, rest + b);
      Assoc(l + "\n", rest, b);
      LinesConcat(rest, b);
      Assoc([l], Lines(rest), Lines(b));
    }
  }

  lemma LinesOfOne(l: string)
    requires '\n' !in l
    ensures Lines(l + "\n") == [l]
  {
    LinesCons(l, "");
    assert l + "\n" + "" == l + "\n";
  }

  /** Text put in front of a first line changes that line only. */
  lemma LinesAfterPrefix(prefix: string, f: string)
    requires '\n' !in prefix
    ensures var without, with := Lines(f + "\n"), Lines(prefix + f + "\n");
            without != [] && with != [] && with[0] == prefix + without[0] && with[1..] == without[1..]
  {
    var l, rest := FirstLine(f + "\n");
    LinesCons(l, rest);
    LinesCons(prefix + l, rest);
    assert prefix + f + "\n" == prefix + l + "\n" + rest by {
      Assoc(prefix, f, "\n");
      Assoc(prefix, l, "\n" + rest);
      Assoc(l, "\n", rest);
      Assoc(prefix + l, "\n", rest);
    }
  }
}
