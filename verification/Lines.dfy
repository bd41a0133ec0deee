/** Byte files read as runs of newline-terminated lines.
    A file is `complete part + torn tail`: the complete part ends in a newline (or is
    empty), the torn tail holds none. */
module Lines {

  newtype byte = x: int | 0 <= x < 256
  type Bytes = seq<byte>

  const NL: byte := 10

  ghost predicate NoNL(b: Bytes) {
    forall i :: 0 <= i < |b| ==> b[i] != NL
  }

  predicate Terminated(b: Bytes) {
    b == [] || b[|b| - 1] == NL
  }

  /** One past the last newline of `b`, else 0. */
  function CompleteLen(b: Bytes): (n: nat)
    ensures n <= |b|
    ensures n == 0 || b[n - 1] == NL
    ensures forall i :: n <= i < |b| ==> b[i] != NL
  {
    if b == [] then 0
    else if b[|b| - 1] == NL then |b|
    else CompleteLen(b[..|b| - 1])
  }

  function Complete(b: Bytes): (c: Bytes)
    ensures Terminated(c)
    ensures c <= b
  {
    b[..CompleteLen(b)]
  }

  function FirstNL(b: Bytes): (k: nat)
    requires b != [] && Terminated(b)
    ensures k < |b| && b[k] == NL
    ensures forall i :: 0 <= i < k ==> b[i] != NL
  {
    if b[0] == NL then 0 else 1 + FirstNL(b[1..])
  }

  /** The lines of a terminated run, without their newlines. */
  function Split(b: Bytes): (ls: seq<Bytes>)
    requires Terminated(b)
    ensures b == [] <==> ls == []
  {
    if b == [] then [] else [b[..FirstNL(b)]] + Split(b[FirstNL(b) + 1..])
  }

  /** The bytes of lines, each with its newline. */
  function Unsplit(lines: seq<Bytes>): Bytes {
    if lines == [] then [] else lines[0] + [NL] + Unsplit(lines[1..])
  }

  /** Splitting loses no byte and leaves no newline inside a line. */
  lemma {:induction false} SplitJoins(b: Bytes)
    requires Terminated(b)
    ensures Unsplit(Split(b)) == b
    ensures forall i :: 0 <= i < |Split(b)| ==> NoNL(Split(b)[i])
    decreases |b|
  {
    hide Split;
    if b == [] {
      assert Split([]) == [] by { SplitNothing(); }
    } else {
      var x, t := Uncons(b);
      SplitJoins(t);
      SplitCons(x, t);
      var lines := Split(b);
      assert lines[0] == x && lines[1..] == Split(t);
      assert forall i :: 0 < i < |lines| ==> lines[i] == Split(t)[i - 1];
    }
  }

  lemma SplitNothing()
    ensures Split([]) == []
  {
  }

  /** The end (past the newline) of the last line of `b` that satisfies `hit`, else 0. */
  function EndOfLast(hit: iset<Bytes>, b: Bytes): (r: nat)
    requires Terminated(b)
    ensures r <= |b| && (r == 0 || b[r - 1] == NL)
  {
    if b == [] then 0
    else
      var k := FirstNL(b);
      var e := EndOfLast(hit, b[k + 1..]);
      if e > 0 then k + 1 + e else if b[..k] in hit then k + 1 else 0
  }

  lemma ConsFirst(x: Bytes, t: Bytes)
    requires NoNL(x) && Terminated(t)
    ensures Terminated(x + [NL] + t)
    ensures FirstNL(x + [NL] + t) == |x|
    ensures (x + [NL] + t)[..|x|] == x
    ensures (x + [NL] + t)[|x| + 1..] == t
  {
    var b := x + [NL] + t;
    assert b[|x|] == NL;
    forall i | 0 <= i < |x| ensures b[i] != NL {
      assert b[i] == x[i];
    }
  }

  /** A non-empty terminated run is a first line and the rest. */
  lemma Uncons(b: Bytes) returns (x: Bytes, t: Bytes)
    requires Terminated(b) && b != []
    ensures NoNL(x) && Terminated(t) && |t| < |b| && b == x + [NL] + t
  {
    var k := FirstNL(b);
    x, t := b[..k], b[k + 1..];
  }

  lemma SplitCons(x: Bytes, t: Bytes)
    requires NoNL(x) && Terminated(t)
    ensures Terminated(x + [NL] + t)
    ensures Split(x + [NL] + t) == [x] + Split(t)
  {
    ConsFirst(x, t);
  }

  lemma EndOfLastCons(hit: iset<Bytes>, x: Bytes, t: Bytes)
    requires NoNL(x) && Terminated(t)
    ensures Terminated(x + [NL] + t)
    ensures EndOfLast(hit, x + [NL] + t) ==
            var e := EndOfLast(hit, t);
            if e > 0 then |x| + 1 + e else if x in hit then |x| + 1 else 0
  {
    ConsFirst(x, t);
  }

  lemma Assoc<T>(a: seq<T>, b: seq<T>, c: seq<T>)
    ensures a + (b + c) == a + b + c
  {
  }

  lemma SliceOfSlice<T>(b: seq<T>, s: nat, e: nat, i: nat, j: nat)
    requires s <= e <= |b| && i <= j <= e - s
    ensures b[s..e][i..j] == b[s + i..s + j]
  {
    forall k | 0 <= k < j - i ensures b[s..e][i..j][k] == b[s + i..s + j][k] {
      assert b[s..e][i..j][k] == b[s..e][i + k];
    }
  }

  lemma CutSlice<T>(b: seq<T>, s: nat, e: nat, i: nat)
    requires s <= e <= |b| && i <= e - s
    ensures b[s..e][..i] == b[s..s + i]
    ensures b[s..e][i..] == b[s + i..e]
  {
    forall k | 0 <= k < i ensures b[s..e][..i][k] == b[s..s + i][k] {
    }
    forall k | 0 <= k < e - s - i ensures b[s..e][i..][k] == b[s + i..e][k] {
      assert b[s..e][i..][k] == b[s..e][i + k];
    }
  }

  lemma Regroup<T>(a: seq<T>, b: seq<T>, c: seq<T>, d: seq<T>, e: seq<T>)
    ensures a + (b + c + d + e) == (a + b) + c + d + e
  {
    Assoc(a, b + c + d, e);
    Assoc(a, b + c, d);
    Assoc(a, b, c);
  }

  lemma TerminatedConcat(a: Bytes, b: Bytes)
    requires Terminated(a) && Terminated(b)
    ensures Terminated(a + b)
  {
    if b == [] {
      assert a + b == a;
    }
  }

  lemma {:induction false} SplitConcat(a: Bytes, b: Bytes)
    requires Terminated(a) && Terminated(b)
    ensures Terminated(a + b)
    ensures Split(a + b) == Split(a) + Split(b)
    decreases |a|
  {
    if a == [] {
      assert a + b == b;
    } else {
      var x, t := Uncons(a);
      Assoc(x + [NL], t, b);
      SplitConcat(t, b);
      SplitCons(x, t);
      SplitCons(x, t + b);
      Assoc([x], Split(t), Split(b));
    }
  }

  lemma {:induction false} EndOfLastConcat(hit: iset<Bytes>, a: Bytes, b: Bytes)
    requires Terminated(a) && Terminated(b)
    ensures Terminated(a + b)
    ensures EndOfLast(hit, a + b) ==
            if EndOfLast(hit, b) > 0 then |a| + EndOfLast(hit, b) else EndOfLast(hit, a)
    decreases |a|
  {
    if a == [] {
      assert a + b == b;
    } else {
      var x, t := Uncons(a);
      Assoc(x + [NL], t, b);
      EndOfLastConcat(hit, t, b);
      EndOfLastCons(hit, x, t);
      EndOfLastCons(hit, x, t + b);
    }
  }

  /** The last hit is a whole line `l` of the run, and no later line is one. */
  lemma {:induction false} EndOfLastMeaning(hit: iset<Bytes>, b: Bytes) returns (p: Bytes, l: Bytes, q: Bytes)
    requires Terminated(b) && EndOfLast(hit, b) > 0
    ensures Terminated(p) && NoNL(l) && Terminated(q) && l in hit
    ensures b == p + l + [NL] + q
    ensures EndOfLast(hit, b) == |p| + |l| + 1
    ensures EndOfLast(hit, q) == 0
    decreases |b|
  {
    var x, t := Uncons(b);
    EndOfLastCons(hit, x, t);
    if EndOfLast(hit, t) > 0 {
      var p';
      p', l, q := EndOfLastMeaning(hit, t);
      p := x + [NL] + p';
      Regroup(x + [NL], p', l, [NL], q);
      TerminatedConcat(x + [NL], p');
    } else {
      p, l, q := [], x, t;
      assert [] + x == x;
    }
  }

  /** The last newline is where no newline follows. */
  lemma CompleteLenIs(b: Bytes, n: nat)
    requires n <= |b| && (n == 0 || b[n - 1] == NL)
    requires forall i :: n <= i < |b| ==> b[i] != NL
    ensures CompleteLen(b) == n
  {
    hide CompleteLen;
    var m := CompleteLen(b);
    assert m == 0 || b[m - 1] == NL;
  }

  lemma CompleteLenFrom(b: Bytes, n: nat)
    requires n <= |b| && (n == 0 || b[n - 1] == NL)
    ensures CompleteLen(b) == n + CompleteLen(b[n..])
  {
    hide CompleteLen;
    var t := b[n..];
    var m := CompleteLen(t);
    assert m > 0 ==> b[n + m - 1] == t[m - 1];
    forall i | n + m <= i < |b| ensures b[i] != NL {
      assert t[i - n] != NL;
    }
    CompleteLenIs(b, n + m);
  }

  lemma TakeMore<T>(b: seq<T>, n: nat, m: nat)
    requires n + m <= |b|
    ensures b[..n + m] == b[..n] + b[n..][..m]
  {
  }

  /** The complete part of a file whose first `n` bytes end a line. */
  lemma CompleteFrom(b: Bytes, n: nat)
    requires n <= |b| && Terminated(b[..n])
    ensures CompleteLen(b) == n + CompleteLen(b[n..])
    ensures Complete(b) == b[..n] + Complete(b[n..])
  {
    hide CompleteLen;
    assert n > 0 ==> b[..n][n - 1] == b[n - 1];
    CompleteLenFrom(b, n);
    TakeMore(b, n, CompleteLen(b[n..]));
  }

  lemma CompleteMonotone(a: Bytes, b: Bytes)
    requires a <= b
    ensures Complete(a) <= Complete(b)
  {
    var n := CompleteLen(a);
    assert b[..n] == a[..n];
    CompleteFrom(b, n);
  }
}
