/** The command-line tokenizer with its growing token array (src/utils/input.c). */
module SplitLine {
  import opened Text

  const TOK_BUFSIZE := 64

  predicate Delim(c: char) { c == ' ' || c == '\t' || c == '\r' || c == '\n' || c == '\U{7}' }

  // ----- what the tokens of a line are

  function SkipDelims(s: string, p: nat): (a: nat)
    requires p <= |s|
    ensures p <= a <= |s| && (a < |s| ==> !Delim(s[a]))
    ensures forall i :: p <= i < a ==> Delim(s[i])
    decreases |s| - p
  {
    if p < |s| && Delim(s[p]) then SkipDelims(s, p + 1) else p
  }

  function RunEnd(s: string, p: nat): (e: nat)
    requires p <= |s|
    ensures p <= e <= |s| && (e < |s| ==> Delim(s[e]))
    ensures forall i :: p <= i < e ==> !Delim(s[i])
    decreases |s| - p
  {
    if p < |s| && !Delim(s[p]) then RunEnd(s, p + 1) else p
  }

  function After(s: string, e: nat): nat { if e < |s| then e + 1 else e }

  /** Start and end of each token from p on, as successive calls of strtok find them. */
  function Spans(s: string, p: nat): seq<(nat, nat)>
    requires p <= |s|
    decreases |s| - p
  {
    var a := SkipDelims(s, p);
    if a == |s| then []
    else
      var e := RunEnd(s, a);
      [(a, e)] + Spans(s, After(s, e))
  }

  /** A maximal delimiter-free run. */
  predicate Run(s: string, lo: nat, a: nat, e: nat) {
    && lo <= a < e <= |s|
    && (forall i :: a <= i < e ==> !Delim(s[i]))
    && (a == lo || Delim(s[a - 1])) && (e == |s| || Delim(s[e]))
  }

  lemma RunAfterDelim(s: string, p: nat, q: nat, a: nat, e: nat)
    requires p < q <= |s| && Delim(s[q - 1]) && Run(s, q, a, e)
    ensures Run(s, p, a, e)
  {
  }

  /** Each span is a maximal run, and ends before the next begins. */
  lemma {:induction false} SpansAreRuns(s: string, p: nat, k: nat)
    requires p <= |s| && k < |Spans(s, p)|
    ensures var sp := Spans(s, p);
            Run(s, p, sp[k].0, sp[k].1) && (k + 1 < |sp| ==> sp[k].1 < sp[k + 1].0)
    decreases |s| - p
  {
    var a := SkipDelims(s, p);
    var e := RunEnd(s, a);
    var q := After(s, e);
    var rest := Spans(s, q);
    assert Spans(s, p) == [(a, e)] + rest;
    if k > 0 {
      SpansAreRuns(s, q, k - 1);
      RunAfterDelim(s, p, q, rest[k - 1].0, rest[k - 1].1);
    } else if rest != [] {
      SpansAreRuns(s, q, 0);
    }
  }

  /** Every character that is not a delimiter lies in a span. */
  lemma {:induction false} SpansCover(s: string, p: nat, i: nat) returns (k: nat)
    requires p <= i < |s| && !Delim(s[i])
    ensures k < |Spans(s, p)| && Spans(s, p)[k].0 <= i < Spans(s, p)[k].1
    decreases |s| - p
  {
    var a := SkipDelims(s, p);
    var e := RunEnd(s, a);
    assert Spans(s, p) == [(a, e)] + Spans(s, After(s, e));
    if i < e {
      k := 0;
    } else {
      k := SpansCover(s, After(s, e), i);
      k := k + 1;
    }
  }

  // ----- strtok and the splitter, on the buffer

  /** The buffer holds the untouched text s from p on. */
  ghost predicate Untouched(line: array<char>, s: string, p: nat)
    reads line
  {
    p <= |s| < line.Length && line[|s|] == '\0' && forall i :: p <= i < |s| ==> line[i] == s[i] != '\0'
  }

  /** `strspn`: past the leading delimiters. */
  method SkipLeading(line: array<char>, p: nat, ghost s: string) returns (a: nat)
    requires Untouched(line, s, p)
    ensures a == SkipDelims(s, p) && Untouched(line, s, a)
  {
    a := p;
    while line[a] != '\0' && Delim(line[a])
      invariant p <= a <= |s| && SkipDelims(s, p) == SkipDelims(s, a)
      invariant Untouched(line, s, a)
      decreases |s| - a
    {
      a := a + 1;
    }
  }

  /** `strcspn`: to the end of the token. */
  method SkipToken(line: array<char>, a: nat, ghost s: string) returns (e: nat)
    requires Untouched(line, s, a)
    ensures e == RunEnd(s, a) && Untouched(line, s, e)
  {
    e := a;
    while line[e] != '\0' && !Delim(line[e])
      invariant a <= e <= |s| && RunEnd(s, a) == RunEnd(s, e)
      invariant Untouched(line, s, e)
      decreases |s| - e
    {
      e := e + 1;
    }
  }

  /** `strtok(NULL, TOY_TOK_DELIM)` resumed at p; the token's end is overwritten with a terminator. */
  method StrTok(line: array<char>, p: nat, ghost s: string) returns (token: Option<nat>, save: nat)
    requires Untouched(line, s, p)
    modifies line
    ensures var a := SkipDelims(s, p);
            if a == |s| then token == None && save == |s| && line[..] == old(line[..])
            else var e := RunEnd(s, a);
              && token == Some(a) && save == After(s, e) && line[e] == '\0'
              && forall i :: 0 <= i < line.Length && i != e ==> line[i] == old(line[i])
  {
    var a := SkipLeading(line, p, s);
    if line[a] == '\0' {
      return None, a;
    }
    var e := SkipToken(line, a, s);
    token := Some(a);
    if line[e] == '\0' {
      save := e;
    } else {
      line[e] := '\0';
      save := e + 1;
    }
  }

  /** The C string at a token's start is exactly the token. */
  ghost predicate TokenAt(line: array<char>, s: string, span: (nat, nat))
    reads line
  {
    && span.0 < span.1 <= |s| < line.Length
    && (forall i :: span.0 <= i < span.1 ==> line[i] == s[i]) && line[span.1] == '\0'
  }

  /** The first n tokens are in place, and none of them reaches beyond p. */
  ghost predicate Cut(line: array<char>, s: string, spans: seq<(nat, nat)>, n: nat, p: nat)
    reads line
  {
    n <= |spans| && forall k :: 0 <= k < n ==> TokenAt(line, s, spans[k]) && spans[k].1 <= p
  }

  /** strtok is to resume at p: the first n spans are cut out and the others lie ahead. */
  ghost predicate Resuming(line: array<char>, s: string, spans: seq<(nat, nat)>, n: nat, p: nat)
    reads line
  {
    Untouched(line, s, p) && Cut(line, s, spans, n, p) && spans[n..] == Spans(s, p)
  }

  /** strtok has returned: the n-th token, or NULL after the last one. */
  ghost predicate Returned(line: array<char>, s: string, spans: seq<(nat, nat)>, n: nat, token: Option<nat>, save: nat)
    reads line
  {
    if token.None? then n == |spans| && Cut(line, s, spans, n, save)
    else n < |spans| && token.value == spans[n].0 && Resuming(line, s, spans, n + 1, save)
  }

  /** One call of strtok: the spans before p are cut out, the next is found, or there is none. */
  method NextToken(line: array<char>, p: nat, ghost s: string, ghost spans: seq<(nat, nat)>, ghost n: nat)
    returns (token: Option<nat>, save: nat)
    requires Resuming(line, s, spans, n, p)
    modifies line
    ensures Returned(line, s, spans, n, token, save)
  {
    token, save := StrTok(line, p, s);
    if token.Some? {
      ghost var a := SkipDelims(s, p);
      assert spans[n..][0] == (a, RunEnd(s, a)) && spans[n..][1..] == spans[n + 1..];
    }
  }

  function Capacity(n: nat): nat { TOK_BUFSIZE * (n / TOK_BUFSIZE + 1) }

  method Grow(tokens: array<Option<nat>>) returns (bigger: array<Option<nat>>)
    ensures fresh(bigger) && bigger.Length == tokens.Length + TOK_BUFSIZE
    ensures bigger[..tokens.Length] == tokens[..]
  {
    bigger := new Option<nat>[tokens.Length + TOK_BUFSIZE](_ => None);
    for i := 0 to tokens.Length
      invariant bigger[..i] == tokens[..i]
    {
      bigger[i] := tokens[i];
      assert bigger[..i + 1] == bigger[..i] + [tokens[i]];
    }
    assert tokens[..] == tokens[..tokens.Length];
  }

  /** Stores a token and, when that fills the array, grows it, unless memory runs out. */
  method Store(tokens: array<Option<nat>>, position: nat, token: Option<nat>, memory: nat, ghost spans: seq<(nat, nat)>)
    returns (ok: bool, after: array<Option<nat>>)
    requires position < tokens.Length == Capacity(position) <= memory
    requires position < |spans| && Starts(tokens, spans, position) && token == Some(spans[position].0)
    modifies tokens
    ensures ok <==> Capacity(position + 1) <= memory
    ensures after == tokens || fresh(after)
    ensures ok ==> after.Length == Capacity(position + 1) && Starts(after, spans, position + 1)
  {
    tokens[position] := token;
    ok, after := true, tokens;
    CapacityStep(position);
    if position + 1 >= tokens.Length {
      if tokens.Length + TOK_BUFSIZE > memory {
        return false, tokens;
      }
      after := Grow(tokens);
      assert forall k :: 0 <= k < tokens.Length ==> after[k] == after[..tokens.Length][k] == tokens[..][k];
    }
  }

  /** The smallest multiple of 64 that leaves room for the NULL. */
  lemma CapacityIs(n: nat)
    ensures Capacity(n) % 64 == 0 && n < Capacity(n) <= n + 64
  {
  }

  lemma CapacityStep(n: nat)
    ensures n < Capacity(n)
    ensures Capacity(n + 1) == if n + 1 >= Capacity(n) then Capacity(n) + TOK_BUFSIZE else Capacity(n)
  {
  }

  /** The pointers of the first n tokens. */
  ghost predicate Starts(tokens: array<Option<nat>>, spans: seq<(nat, nat)>, n: nat)
    reads tokens
  {
    n <= |spans| && n <= tokens.Length && forall k :: 0 <= k < n ==> tokens[k] == Some(spans[k].0)
  }

  /**
   * `toy_split_line` on the C string s: one pointer per token, each a terminated copy-free token, then the NULL,
   * which is always inside the array. `memory` bounds the array malloc and realloc can provide.
   */
  method Split(line: array<char>, ghost s: string, memory: nat) returns (ok: bool, tokens: array<Option<nat>>)
    requires Untouched(line, s, 0)
    modifies line
    ensures ok <==> Capacity(|Spans(s, 0)|) <= memory
    ensures ok ==> var spans := Spans(s, 0);
                   && tokens.Length == Capacity(|spans|) && Starts(tokens, spans, |spans|)
                   && |spans| < tokens.Length && tokens[|spans|] == None
                   && forall k :: 0 <= k < |spans| ==> TokenAt(line, s, spans[k])
  {
    ghost var spans := Spans(s, 0);
    assert spans[0..] == spans;
    ok, tokens := SplitInto(line, s, memory, spans);
  }

  /** One turn of the loop: the token in hand is stored, the array grows if it must, and strtok is called again. */
  method Turn(line: array<char>, ghost s: string, tokens: array<Option<nat>>, position: nat, token: Option<nat>,
              save: nat, memory: nat, ghost spans: seq<(nat, nat)>)
    returns (ok: bool, after: array<Option<nat>>, token': Option<nat>, save': nat)
    requires token.Some? && Returned(line, s, spans, position, token, save)
    requires position < tokens.Length == Capacity(position) <= memory && Starts(tokens, spans, position)
    modifies line, tokens
    ensures after == tokens || fresh(after)
    ensures position < |spans| && (!ok ==> Capacity(|spans|) > memory)
    ensures ok ==> position + 1 < after.Length == Capacity(position + 1) <= memory && Starts(after, spans, position + 1)
    ensures ok ==> Returned(line, s, spans, position + 1, token', save')
  {
    ok, after := Store(tokens, position, token, memory, spans);
    CapacityGrows(position + 1, |spans|);
    token', save' := None, save;
    if ok {
      token', save' := NextToken(line, save, s, spans, position + 1);
    }
  }

  method SplitInto(line: array<char>, ghost s: string, memory: nat, ghost spans: seq<(nat, nat)>)
    returns (ok: bool, tokens: array<Option<nat>>)
    requires Resuming(line, s, spans, 0, 0)
    modifies line
    ensures ok <==> Capacity(|spans|) <= memory
    ensures ok ==> tokens.Length == Capacity(|spans|) && Starts(tokens, spans, |spans|)
    ensures ok ==> |spans| < tokens.Length && tokens[|spans|] == None && Cut(line, s, spans, |spans|, |s|)
  {
    tokens := new Option<nat>[TOK_BUFSIZE](_ => None);
    if memory < TOK_BUFSIZE {
      return false, tokens;
    }
    var position: nat := 0;
    var token, save := NextToken(line, 0, s, spans, 0);
    while token != None
      invariant fresh(tokens) && position < tokens.Length == Capacity(position) <= memory
      invariant Starts(tokens, spans, position) && Returned(line, s, spans, position, token, save)
      decreases |spans| - position, token.Some?
    {
      ok, tokens, token, save := Turn(line, s, tokens, position, token, save, memory, spans);
      position := position + 1;
      if !ok {
        return;
      }
    }
    tokens[position] := None;
    ok := true;
  }

  lemma CapacityGrows(m: nat, n: nat)
    requires m <= n
    ensures m < Capacity(m) <= Capacity(n)
  {
  }

  // ----- splitting undoes joining with single spaces

  /** The texts of the tokens from p on. */
  function TokensFrom(s: string, p: nat): seq<string>
    requires p <= |s|
    decreases |s| - p
  {
    var a := SkipDelims(s, p);
    if a == |s| then []
    else
      var e := RunEnd(s, a);
      [s[a..e]] + TokensFrom(s, After(s, e))
  }

  function Tokens(s: string): seq<string> { TokensFrom(s, 0) }

  /** They are the texts of the spans. */
  lemma {:induction false} TokensAreSpans(s: string, p: nat, k: nat)
    requires p <= |s| && k < |Spans(s, p)|
    ensures |TokensFrom(s, p)| == |Spans(s, p)|
    ensures Spans(s, p)[k].0 <= Spans(s, p)[k].1 <= |s|
    ensures TokensFrom(s, p)[k] == s[Spans(s, p)[k].0..Spans(s, p)[k].1]
    decreases |s| - p
  {
    var a := SkipDelims(s, p);
    var e := RunEnd(s, a);
    var q := After(s, e);
    assert Spans(s, p) == [(a, e)] + Spans(s, q);
    if k > 0 {
      TokensAreSpans(s, q, k - 1);
    } else if Spans(s, q) != [] {
      TokensAreSpans(s, q, 0);
    }
  }

  predicate Word(w: string) { w != "" && forall i :: 0 <= i < |w| ==> !Delim(w[i]) }

  function JoinWords(ws: seq<string>): string {
    if ws == [] then "" else if |ws| == 1 then ws[0] else ws[0] + " " + JoinWords(ws[1..])
  }

  /** A word standing at p, ended by a delimiter or the end of the text. */
  lemma WordAt(s: string, p: nat, w: string)
    requires Word(w) && p + |w| <= |s| && s[p..p + |w|] == w
    requires p + |w| == |s| || Delim(s[p + |w|])
    ensures SkipDelims(s, p) == p && RunEnd(s, p) == p + |w|
  {
  }

  lemma TokensOfWord(s: string, p: nat, w: string)
    requires Word(w) && p + |w| <= |s| && s[p..p + |w|] == w
    requires p + |w| == |s| || Delim(s[p + |w|])
    ensures TokensFrom(s, p) == [w] + TokensFrom(s, After(s, p + |w|))
  {
    WordAt(s, p, w);
  }

  /** Where the first of several joined words stands. */
  lemma FirstWordStands(s: string, pre: string, ws: seq<string>)
    requires ws != [] && s == pre + JoinWords(ws)
    ensures var p, q := |pre|, |pre| + |ws[0]|;
            && q <= |s| && s[p..q] == ws[0] && (|ws| == 1 ==> q == |s|)
            && (|ws| > 1 ==> q < |s| && s[q] == ' ' && s == pre + ws[0] + " " + JoinWords(ws[1..]))
  {
  }

  lemma {:induction false} TokensOfJoin(s: string, pre: string, ws: seq<string>)
    requires forall i :: 0 <= i < |ws| ==> Word(ws[i])
    requires s == pre + JoinWords(ws)
    ensures TokensFrom(s, |pre|) == ws
    decreases ws
  {
    if ws == [] {
      assert s == pre;
    } else {
      var w, p := ws[0], |pre|;
      FirstWordStands(s, pre, ws);
      TokensOfWord(s, p, w);
      if |ws| == 1 {
        assert TokensFrom(s, |s|) == [];
      } else {
        assert After(s, p + |w|) == |pre + w + " "|;
        TokensOfJoin(s, pre + w + " ", ws[1..]);
      }
      assert ws == [w] + ws[1..];
    }
  }

  lemma NothingBefore(s: string)
    ensures "" + s == s
  {
  }

  /** Words joined by single spaces are what splitting gives back. */
  lemma SplitOfJoin(ws: seq<string>)
    requires forall i :: 0 <= i < |ws| ==> Word(ws[i])
    ensures Tokens(JoinWords(ws)) == ws
  {
    NothingBefore(JoinWords(ws));
    TokensOfJoin(JoinWords(ws), "", ws);
  }

  /** Blank, tab, carriage return, newline and bell separate words. */
  predicate Separator(c: char) { c in " \t\r\n\U{0007}" }

  predicate Blank(t: string) { forall i :: 0 <= i < |t| ==> Separator(t[i]) }

  /** No separator occurs in a word. */
  predicate Solid(w: string) { w != "" && forall i :: 0 <= i < |w| ==> !Separator(w[i]) }

  /** Words, each after some separators, and separators at the end. */
  function Spread(parts: seq<(string, string)>, tail: string): string {
    if parts == [] then tail else parts[0].0 + parts[0].1 + Spread(parts[1..], tail)
  }

  function Words(parts: seq<(string, string)>): seq<string> {
    if parts == [] then [] else [parts[0].1] + Words(parts[1..])
  }

  /** Only the first word may stand without a separator before it. */
  predicate WellSpread(parts: seq<(string, string)>, tail: string) {
    && Blank(tail)
    && forall i :: 0 <= i < |parts| ==> Blank(parts[i].0) && Solid(parts[i].1) && (i > 0 ==> parts[i].0 != "")
  }

  lemma DelimIs(c: char)
    ensures Delim(c) <==> Separator(c)
  {
  }

  /** Separators at p are skipped. */
  lemma {:induction false} SkipBlank(s: string, p: nat, q: nat)
    requires p <= q <= |s| && (forall i :: p <= i < q ==> Delim(s[i])) && (q == |s| || !Delim(s[q]))
    ensures SkipDelims(s, p) == q
    decreases q - p
  {
    if p < q { SkipBlank(s, p + 1, q); }
  }

  lemma Pieces(s: string, p: nat, x: string, w: string, rest: string)
    requires p <= |s| && s[p..] == x + w + rest
    ensures var a, e := p + |x|, p + |x| + |w|;
            && e <= |s| && s[e..] == rest && s[a..e] == w
            && (forall i :: p <= i < a ==> s[i] == x[i - p]) && (forall i :: a <= i < e ==> s[i] == w[i - a])
            && (rest != "" ==> e < |s| && s[e] == rest[0])
  {
    forall i | p <= i < |s|
      ensures s[i] == (x + w + rest)[i - p]
    {
      assert s[i] == s[p..][i - p];
    }
  }

  lemma SolidIsWord(w: string)
    requires Solid(w)
    ensures Word(w)
  {
    forall i | 0 <= i < |w|
      ensures !Delim(w[i])
    {
      DelimIs(w[i]);
    }
  }

  /** From p on, strtok finds w and goes on at q. */
  predicate Finds(s: string, p: nat, w: string, q: nat) {
    && p <= |s| && q <= |s|
    && var a := SkipDelims(s, p);
       a < |s| && s[a..RunEnd(s, a)] == w && q == After(s, RunEnd(s, a))
  }

  lemma {:induction false} EndOfWord(s: string, p: nat, q: nat)
    requires p <= q <= |s| && (forall i :: p <= i < q ==> !Delim(s[i])) && (q == |s| || Delim(s[q]))
    ensures RunEnd(s, p) == q
    decreases q - p
  {
    if p < q { EndOfWord(s, p + 1, q); }
  }

  lemma StandsAt(s: string, p: nat, a: nat, e: nat, w: string)
    requires p <= a < e <= |s| && s[a..e] == w
    requires forall i :: p <= i < a ==> Delim(s[i])
    requires forall i :: a <= i < e ==> !Delim(s[i])
    requires e == |s| || Delim(s[e])
    ensures Finds(s, p, w, After(s, e))
  {
    SkipBlank(s, p, a);
    EndOfWord(s, a, e);
  }

  /** The next token, where separators, a word, and something that does not continue it stand. */
  lemma NextWord(s: string, p: nat, x: string, w: string, rest: string) returns (e: nat)
    requires p <= |s| && s[p..] == x + w + rest && Blank(x) && Solid(w)
    requires rest != "" ==> Separator(rest[0])
    ensures e <= |s| && s[e..] == rest && Finds(s, p, w, After(s, e))
  {
    var a := p + |x|;
    e := p + |x| + |w|;
    Pieces(s, p, x, w, rest);
    SolidIsWord(w);
    forall i | p <= i < a
      ensures Delim(s[i])
    {
      DelimIs(x[i - p]);
    }
    if rest != "" { DelimIs(rest[0]); }
    StandsAt(s, p, a, e, w);
  }

  /** Where the words stand once the first separator is passed. */
  function Rest(parts: seq<(string, string)>): seq<(string, string)> {
    if parts == [] || parts[0].0 == "" then parts else [(parts[0].0[1..], parts[0].1)] + parts[1..]
  }

  function RestTail(parts: seq<(string, string)>, tail: string): string {
    if parts == [] && tail != "" then tail[1..] else tail
  }

  lemma DropFirst(x: string, w: string, rest: string)
    requires x != ""
    ensures x[1..] + w + rest == (x + w + rest)[1..]
  {
  }

  lemma RestSpread(parts: seq<(string, string)>, tail: string)
    requires WellSpread(parts, tail) && (if parts == [] then tail != "" else parts[0].0 != "")
    ensures Spread(parts, tail) != "" && Separator(Spread(parts, tail)[0])
    ensures Spread(Rest(parts), RestTail(parts, tail)) == Spread(parts, tail)[1..]
    ensures WellSpread(Rest(parts), RestTail(parts, tail)) && Words(Rest(parts)) == Words(parts)
  {
    if parts != [] {
      var (x, w) := parts[0];
      assert Rest(parts)[1..] == parts[1..];
      DropFirst(x, w, Spread(parts[1..], tail));
    }
  }

  lemma TailSpread(parts: seq<(string, string)>, tail: string)
    requires parts != [] && WellSpread(parts, tail)
    ensures WellSpread(parts[1..], tail)
    ensures parts[1..] != [] ==> parts[1..][0].0 != ""
  {
  }

  lemma NoWord(s: string, p: nat, tail: string)
    requires p <= |s| && s[p..] == tail && Blank(tail)
    ensures TokensFrom(s, p) == []
  {
    forall i | p <= i < |s|
      ensures Delim(s[i])
    {
      assert s[i] == tail[i - p];
      DelimIs(tail[i - p]);
    }
    SkipBlank(s, p, |s|);
  }

  lemma TokenComesFirst(s: string, p: nat, w: string, q: nat)
    requires Finds(s, p, w, q)
    ensures TokensFrom(s, p) == [w] + TokensFrom(s, q)
  {
  }

  lemma {:induction false} TokensOfSpread(s: string, p: nat, parts: seq<(string, string)>, tail: string)
    requires p <= |s| && s[p..] == Spread(parts, tail) && WellSpread(parts, tail)
    ensures TokensFrom(s, p) == Words(parts)
    decreases |parts|
  {
    if parts == [] {
      NoWord(s, p, tail);
    } else {
      var q, rest, end := SpreadStep(s, p, parts, tail);
      TokensOfSpread(s, q, rest, end);
      TokenComesFirst(s, p, parts[0].1, q);
    }
  }

  /** What follows the first word: nothing, or a separator and more of the same. */
  lemma Following(parts: seq<(string, string)>, tail: string)
    returns (text: string, rest: seq<(string, string)>, end: string)
    requires WellSpread(parts, tail) && parts != []
    ensures text == Spread(parts[1..], tail) && (text != "" ==> Separator(text[0]))
    ensures Spread(rest, end) == if text == "" then "" else text[1..]
    ensures WellSpread(rest, end) && |rest| < |parts| && Words(rest) == Words(parts[1..])
  {
    text, rest, end := Spread(parts[1..], tail), parts[1..], tail;
    TailSpread(parts, tail);
    if text != "" {
      SomethingFollows(rest, tail);
      RestSpread(rest, tail);
      rest, end := Rest(rest), RestTail(rest, tail);
    }
  }

  /** Past a word, and past one separator if there is one. */
  lemma PassWord(s: string, p: nat, x: string, w: string, rest: string) returns (q: nat)
    requires p <= |s| && s[p..] == x + w + rest && Blank(x) && Solid(w) && (rest != "" ==> Separator(rest[0]))
    ensures q <= |s| && s[q..] == (if rest == "" then "" else rest[1..])
    ensures Finds(s, p, w, q)
  {
    var e := NextWord(s, p, x, w, rest);
    AfterText(s, e, rest);
    q := After(s, e);
  }

  lemma AfterText(s: string, e: nat, rest: string)
    requires e <= |s| && s[e..] == rest
    ensures After(s, e) <= |s| && s[After(s, e)..] == if rest == "" then "" else rest[1..]
  {
  }

  lemma SpreadStep(s: string, p: nat, parts: seq<(string, string)>, tail: string)
    returns (q: nat, rest: seq<(string, string)>, end: string)
    requires p <= |s| && s[p..] == Spread(parts, tail) && WellSpread(parts, tail) && parts != []
    ensures q <= |s| && s[q..] == Spread(rest, end) && WellSpread(rest, end) && |rest| < |parts|
    ensures Words(rest) == Words(parts[1..]) && Finds(s, p, parts[0].1, q)
  {
    var text;
    text, rest, end := Following(parts, tail);
    q := PassWord(s, p, parts[0].0, parts[0].1, text);
  }

  lemma SomethingFollows(parts: seq<(string, string)>, tail: string)
    requires Spread(parts, tail) != ""
    ensures parts == [] ==> tail != ""
  {
  }

  /** Words separated by any runs of blanks, tabs, carriage returns, newlines and bells come back, in order. */
  lemma SplitOfSpread(parts: seq<(string, string)>, tail: string)
    requires WellSpread(parts, tail)
    ensures Tokens(Spread(parts, tail)) == Words(parts)
  {
    var s := Spread(parts, tail);
    assert s[0..] == s;
    TokensOfSpread(s, 0, parts, tail);
  }
}
