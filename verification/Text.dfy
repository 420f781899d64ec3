/** Splitting and joining text, as the connectors do it. */
module Text {

  // ---------------------------------------------------------------- joining

  function Join(pieces: seq<string>, sep: string): string {
    if pieces == [] then ""
    else if |pieces| == 1 then pieces[0]
    else pieces[0] + sep + Join(pieces[1..], sep)
  }

  lemma {:induction false} JoinLast(pieces: seq<string>, sep: string, last: string)
    requires pieces != []
    ensures Join(pieces + [last], sep) == Join(pieces, sep) + sep + last
  {
    if |pieces| == 1 {
      assert (pieces + [last])[1..] == [last];
    } else {
      assert (pieces + [last])[1..] == pieces[1..] + [last];
      JoinLast(pieces[1..], sep, last);
    }
  }

  // ---------------------------------------------------------------- splitting

  /** The position of the first delimiter from `i` on, or the length. */
  function Find(s: string, delim: char, i: nat): (n: nat)
    requires i <= |s|
    ensures i <= n <= |s|
    ensures forall j :: i <= j < n ==> s[j] != delim
    ensures n < |s| ==> s[n] == delim
    decreases |s| - i
  {
    if i == |s| || s[i] == delim then i else Find(s, delim, i + 1)
  }

  /** The lines getline hands out: text up to each delimiter, and what is left at
      the end if anything is. */
  function Split(s: string, delim: char): seq<string> {
    if s == "" then []
    else
      var n := Find(s, delim, 0);
      if n == |s| then [s] else [s[..n]] + Split(s[n + 1..], delim)
  }

  /** getline: the text from `pos` up to the next delimiter or the end. */
  method GetLine(s: string, delim: char, pos: nat) returns (n: nat)
    requires pos <= |s|
    ensures n == Find(s, delim, pos)
  {
    n := pos;
    while n < |s| && s[n] != delim
      invariant pos <= n <= |s|
      invariant Find(s, delim, n) == Find(s, delim, pos)
    {
      n := n + 1;
    }
  }

  lemma {:induction false} FindInRest(s: string, delim: char, pos: nat, i: nat)
    requires pos <= i <= |s|
    ensures Find(s[pos..], delim, i - pos) == Find(s, delim, i) - pos
    decreases |s| - i
  {
    if i < |s| && s[i] != delim { FindInRest(s, delim, pos, i + 1); }
  }

  /** What follows position `n`. */
  function After(s: string, n: nat): (r: string)
    requires n <= |s|
    ensures s != "" ==> |r| < |s|
  {
    if n < |s| then s[n + 1..] else ""
  }

  lemma SplitFirst(s: string, delim: char)
    requires s != ""
    ensures var n := Find(s, delim, 0); Split(s, delim) == [s[..n]] + Split(After(s, n), delim)
  {
    hide Find;
    var n := Find(s, delim, 0);
    if n == |s| { assert s[..n] == s && Split("", delim) == []; }
  }

  lemma SplitRest(s: string, delim: char, pos: nat)
    requires pos < |s|
    ensures var n := Find(s, delim, pos); Split(s[pos..], delim) == [s[pos..n]] + Split(After(s, n), delim)
  {
    hide Find, Split, After;
    FindInRest(s, delim, pos, pos);
    SplitFirst(s[pos..], delim);
    Suffix(s, pos, Find(s, delim, pos));
  }

  lemma Suffix(s: string, pos: nat, n: nat)
    requires pos <= n <= |s|
    ensures s[pos..][..n - pos] == s[pos..n]
    ensures After(s[pos..], n - pos) == After(s, n)
  {
    if n < |s| { assert s[pos..][n - pos + 1..] == s[n + 1..]; }
  }

  /** Reads lines until the stream is at its end, pushing each onto `elems`. */
  method SplitString(s: string, delim: char, elems: seq<string>) returns (r: seq<string>)
    ensures r == elems + Split(s, delim)
  {
    hide Split;
    r := elems;
    var pos := 0;
    assert s[0..] == s;
    while pos < |s|
      invariant 0 <= pos <= |s|
      invariant r + Split(s[pos..], delim) == elems + Split(s, delim)
      decreases |s| - pos
    {
      SplitRest(s, delim, pos);
      var n := GetLine(s, delim, pos);
      r := r + [s[pos..n]];
      pos := if n < |s| then n + 1 else n;
      assert After(s, n) == s[pos..];
    }
    SplitNothing(s, delim);
  }

  lemma SplitNothing(s: string, delim: char)
    ensures Split(s[|s|..], delim) == []
  {
  }

  /** No piece contains the delimiter. */
  lemma {:induction false} PiecesAreClean(s: string, delim: char)
    ensures forall p :: p in Split(s, delim) ==> delim !in p
  {
    if s != "" {
      var n := Find(s, delim, 0);
      if n < |s| { PiecesAreClean(s[n + 1..], delim); }
    }
  }

  lemma JoinCons(a: string, pieces: seq<string>, sep: string)
    ensures Join([a] + pieces, sep) == if pieces == [] then a else a + sep + Join(pieces, sep)
  {
    assert ([a] + pieces)[1..] == pieces;
  }

  /** Text without one closing delimiter. */
  function Chop(s: string, delim: char): string {
    if s != "" && s[|s| - 1] == delim then s[..|s| - 1] else s
  }

  /** Joining the pieces gives the text back, less exactly one closing delimiter if
      it had one. */
  lemma {:induction false} JoinOfSplit(s: string, delim: char)
    ensures Join(Split(s, delim), [delim]) == Chop(s, delim)
    ensures Split(s, delim) == [] <==> s == ""
    decreases |s|
  {
    hide Find, Join;
    if s == "" {
      JoinNone([delim]);
    } else {
      var n := Find(s, delim, 0);
      var rest := After(s, n);
      SplitFirst(s, delim);
      JoinOfSplit(rest, delim);
      JoinCons(s[..n], Split(rest, delim), [delim]);
      ChopFirst(s, delim);
    }
  }

  lemma ChopFirst(s: string, delim: char)
    requires s != ""
    ensures var n := Find(s, delim, 0);
            var rest := After(s, n);
            Chop(s, delim) == if rest == "" then s[..n] else s[..n] + [delim] + Chop(rest, delim)
  {
    hide Find;
    var n := Find(s, delim, 0);
    var rest := After(s, n);
    if n < |s| { assert s == s[..n] + [delim] + rest; }
  }

  lemma JoinNone(sep: string)
    ensures Join([], sep) == ""
  {
  }

  lemma FindFirst(a: string, delim: char, b: string)
    requires delim !in a
    ensures Find(a + [delim] + b, delim, 0) == |a|
  {
    var s := a + [delim] + b;
    assert s[|a|] == delim && forall j :: 0 <= j < |a| ==> s[j] == a[j];
  }

  lemma SplitCons(a: string, delim: char, rest: string)
    requires delim !in a
    ensures Split(a + [delim] + rest, delim) == [a] + Split(rest, delim)
  {
    hide Find, Split;
    var s := a + [delim] + rest;
    FindFirst(a, delim, rest);
    SplitFirst(s, delim);
    assert s[..|a|] == a && After(s, |a|) == rest;
  }

  lemma SplitSingle(s: string, delim: char)
    requires delim !in s
    ensures Split(s, delim) == if s == "" then [] else [s]
  {
    assert forall n :: 0 <= n < |s| ==> s[n] in s;
  }

  lemma SameTail<T>(a: T, x: seq<T>, y: seq<T>)
    ensures [a] + x == [a] + y <==> x == y
  {
    assert ([a] + x)[1..] == x && ([a] + y)[1..] == y;
  }

  /** Splitting a joined list gives the list back exactly when its last piece is
      not empty. */
  lemma {:induction false} SplitOfJoin(pieces: seq<string>, delim: char)
    requires forall i :: 0 <= i < |pieces| ==> delim !in pieces[i]
    ensures Split(Join(pieces, [delim]), delim) == pieces <==> pieces == [] || pieces[|pieces| - 1] != ""
  {
    hide Find, Split;
    if pieces == [] {
      SplitSingle("", delim);
    } else if |pieces| == 1 {
      assert pieces == [pieces[0]];
      SplitSingle(pieces[0], delim);
    } else {
      var a, rest := pieces[0], pieces[1..];
      assert pieces == [a] + rest;
      SplitCons(a, delim, Join(rest, [delim]));
      SplitOfJoin(rest, delim);
      SameTail(a, Split(Join(rest, [delim]), delim), rest);
    }
  }

  // ---------------------------------------------------------------- numbers

  predicate IsDigit(c: char) { '0' <= c <= '9' }

  function DigitValue(c: char): nat
    requires IsDigit(c)
  {
    c as int - '0' as int
  }

  /** The number a run of leading digits stands for. */
  function NumberFrom(s: string, acc: nat): nat {
    if s == "" || !IsDigit(s[0]) then acc else NumberFrom(s[1..], 10 * acc + DigitValue(s[0]))
  }

  function Number(s: string): nat {
    NumberFrom(s, 0)
  }

  /** Decimal digits, most significant first. */
  function Decimal(n: nat): string {
    if n < 10 then [('0' as int + n) as char]
    else Decimal(n / 10) + [('0' as int + n % 10) as char]
  }

  function Zeros(n: nat): string {
    seq(n, i => '0')
  }

  ghost predicate AllDigits(s: string) {
    forall i :: 0 <= i < |s| ==> IsDigit(s[i])
  }

  lemma {:induction false} NumberAppend(a: string, b: string, acc: nat)
    requires AllDigits(a)
    ensures NumberFrom(a + b, acc) == NumberFrom(b, NumberFrom(a, acc))
  {
    if a == "" {
      assert a + b == b;
    } else {
      assert (a + b)[1..] == a[1..] + b;
      NumberAppend(a[1..], b, 10 * acc + DigitValue(a[0]));
    }
  }

  lemma {:induction false} NumberOfDecimal(n: nat)
    ensures AllDigits(Decimal(n)) && Decimal(n) != "" && Number(Decimal(n)) == n
  {
    var d := [('0' as int + n % 10) as char];
    assert d[1..] == "";
    assert forall acc: nat :: NumberFrom(d, acc) == 10 * acc + n % 10;
    if n < 10 {
      assert Decimal(n) == d;
    } else {
      NumberOfDecimal(n / 10);
      NumberAppend(Decimal(n / 10), d, 0);
    }
  }

  /** What follows the digits is of no account. */
  lemma NumberStops(n: nat, rest: string)
    requires rest == "" || !('0' <= rest[0] <= '9')
    ensures Number(Decimal(n) + rest) == n
  {
    NumberOfDecimal(n);
    NumberAppend(Decimal(n), rest, 0);
  }

  lemma {:induction false} NumberOfZeros(k: nat)
    ensures AllDigits(Zeros(k)) && Number(Zeros(k)) == 0
  {
    if k > 0 {
      NumberOfZeros(k - 1);
      assert Zeros(k)[1..] == Zeros(k - 1);
    }
  }

  /** A zero-padded decimal is read back as its number. */
  lemma PaddedNumber(k: nat, n: nat)
    ensures AllDigits(Zeros(k) + Decimal(n)) && Number(Zeros(k) + Decimal(n)) == n
  {
    NumberOfZeros(k);
    NumberOfDecimal(n);
    NumberAppend(Zeros(k), Decimal(n), 0);
  }
}
