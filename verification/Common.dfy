/** Notions shared by the models. */
module Common {

  datatype Option<+T> = None | Some(value: T)

  predicate Distinct<T(==)>(s: seq<T>) {
    forall i, j :: 0 <= i < j < |s| ==> s[i] != s[j]
  }

  predicate Rising(s: seq<int>) {
    forall i, j :: 0 <= i < j < |s| ==> s[i] < s[j]
  }

  lemma RisingSnoc(s: seq<int>, n: int)
    requires Rising(s) && forall i :: 0 <= i < |s| ==> s[i] < n
    ensures Rising(s + [n])
  {
  }

  /** The elements that are in `good`, in order. */
  ghost function Keep<T(!new)>(s: seq<T>, good: iset<T>): seq<T> {
    if s == [] then [] else (if s[0] in good then [s[0]] else []) + Keep(s[1..], good)
  }

  /** `kept` is `s` at rising positions `at`, which are exactly those of the elements in `good`. */
  ghost predicate KeptAt<T(!new)>(s: seq<T>, good: iset<T>, at: seq<int>, kept: seq<T>) {
    && Rising(at) && |at| == |kept|
    && (forall i :: 0 <= i < |at| ==> 0 <= at[i] < |s| && s[at[i]] == kept[i])
    && (forall k :: 0 <= k < |s| && s[k] in good ==> k in at)
    && (forall i :: 0 <= i < |kept| ==> kept[i] in good)
  }

  lemma {:induction false} KeepConcat<T(!new)>(a: seq<T>, b: seq<T>, good: iset<T>)
    ensures Keep(a + b, good) == Keep(a, good) + Keep(b, good)
    decreases |a|
  {
    if a == [] {
      assert a + b == b;
    } else {
      assert (a + b)[1..] == a[1..] + b && (a + b)[0] == a[0];
      KeepConcat(a[1..], b, good);
      var h, x, y := if a[0] in good then [a[0]] else [], Keep(a[1..], good), Keep(b, good);
      assert h + (x + y) == (h + x) + y;
    }
  }

  /** Only the elements of the sequence matter. */
  lemma {:induction false} KeepSame<T(!new)>(s: seq<T>, good: iset<T>, also: iset<T>)
    requires forall i :: 0 <= i < |s| ==> (s[i] in good <==> s[i] in also)
    ensures Keep(s, good) == Keep(s, also)
    decreases |s|
  {
    if s != [] {
      assert s[0] in good <==> s[0] in also;
      forall i | 0 <= i < |s[1..]| ensures s[1..][i] in good <==> s[1..][i] in also {
        assert s[1..][i] == s[i + 1];
      }
      KeepSame(s[1..], good, also);
    }
  }

  lemma KeepOne<T(!new)>(x: T, good: iset<T>)
    ensures Keep([x], good) == if x in good then [x] else []
  {
    assert [x][1..] == [];
  }

  lemma {:induction false} KeepAll<T(!new)>(s: seq<T>, good: iset<T>)
    requires forall i :: 0 <= i < |s| ==> s[i] in good
    ensures Keep(s, good) == s
    decreases |s|
  {
    if s != [] {
      KeepAll(s[1..], good);
    }
  }

  lemma {:induction false} KeepKeep<T(!new)>(s: seq<T>, good: iset<T>, also: iset<T>)
    ensures Keep(Keep(s, good), also) == Keep(s, good * also)
    decreases |s|
  {
    if s != [] {
      KeepKeep(s[1..], good, also);
      KeepConcat(if s[0] in good then [s[0]] else [], Keep(s[1..], good), also);
      KeepOne(s[0], also);
    }
  }

  lemma {:induction false} KeepAre<T(!new)>(s: seq<T>, good: iset<T>)
    ensures forall x :: x in Keep(s, good) <==> x in s && x in good
    decreases |s|
  {
    if s != [] {
      KeepAre(s[1..], good);
    }
  }

  /** What is kept has its positions. */
  lemma {:induction false} KeepAt<T(!new)>(s: seq<T>, good: iset<T>) returns (at: seq<int>)
    ensures KeptAt(s, good, at, Keep(s, good))
    decreases |s|
  {
    if s == [] {
      at := [];
    } else {
      var n := |s| - 1;
      var before := KeepAt(s[..n], good);
      assert s == s[..n] + [s[n]];
      KeepConcat(s[..n], [s[n]], good);
      KeepOne(s[n], good);
      hide Keep;
      at := before + if s[n] in good then [n] else [];
      forall k | 0 <= k < |s| && s[k] in good ensures k in at {
        if k < n {
          assert s[..n][k] in good && k in before;
        } else {
          assert at[|at| - 1] == n;
        }
      }
    }
  }
}
