/** Vocabulary shared by every model in this project: optional values, results, and the
    bytewise order that the Rust standard library gives to strings. */
module Base {

  datatype Option<+T> = None | Some(value: T)

  datatype Result<+T, +E> = Ok(value: T) | Err(error: E)

  type Id = string

  /** The wire's limits (core/wire/src/lib.rs). */
  const MAX_FRAME_BYTES: nat := 1048576
  const MAX_OBSERVATION_BYTES: nat := 65536

  /** Exclusive bound of a 64-bit unsigned integer. */
  const U64: nat := 0x1_0000_0000_0000_0000

  function Max(a: nat, b: nat): nat { if a < b then b else a }

  /** Rust's integer division and remainder truncate toward zero. */
  function TruncDiv(n: int, d: nat): int
    requires d > 0
  {
    if n < 0 then -((-n) / d) else n / d
  }

  function TruncRem(n: int, d: nat): int
    requires d > 0
  {
    if n < 0 then -((-n) % d) else n % d
  }

  /** `a < b` for Rust `String`: the first differing position decides, a proper prefix is smaller. */
  predicate LexLt(a: string, b: string)
  {
    if b == "" then false
    else if a == "" then true
    else a[0] < b[0] || (a[0] == b[0] && LexLt(a[1..], b[1..]))
  }

  predicate LexLe(a: string, b: string)
  {
    a == b || LexLt(a, b)
  }

  lemma {:induction false} LexIrreflexive(a: string)
    ensures !LexLt(a, a)
  {
    if a != "" {
      LexIrreflexive(a[1..]);
    }
  }

  lemma {:induction false} LexTotal(a: string, b: string)
    ensures LexLt(a, b) || a == b || LexLt(b, a)
  {
    if a != "" && b != "" && a[0] == b[0] {
      LexTotal(a[1..], b[1..]);
      assert a == [a[0]] + a[1..] && b == [b[0]] + b[1..];
    }
  }

  lemma {:induction false} LexTransitive(a: string, b: string, c: string)
    requires LexLt(a, b) && LexLt(b, c)
    ensures LexLt(a, c)
  {
    if a != "" && a[0] == b[0] && b[0] == c[0] {
      LexTransitive(a[1..], b[1..], c[1..]);
    }
  }

  lemma {:induction false} LexAsymmetric(a: string, b: string)
    requires LexLt(a, b)
    ensures !LexLt(b, a) && a != b
  {
    LexIrreflexive(a);
    if LexLt(b, a) {
      LexTransitive(a, b, a);
    }
  }

  predicate LexSorted(s: seq<string>)
  {
    forall i, j :: 0 <= i < j < |s| ==> LexLt(s[i], s[j])
  }

  /** The least element of a set of strings. */
  lemma {:induction false} LeastExists(s: set<string>) returns (least: string)
    requires s != {}
    ensures least in s && forall x :: x in s ==> LexLe(least, x)
    decreases |s|
  {
    var x :| x in s;
    var rest := s - {x};
    if rest == {} {
      least := x;
      forall y | y in s ensures LexLe(least, y) {
        assert y !in rest;
      }
    } else {
      var m := LeastExists(rest);
      LexTotal(x, m);
      least := if LexLt(x, m) then x else m;
      forall y | y in s ensures LexLe(least, y) {
        if y != x {
          assert y in rest;
          if LexLt(x, m) && m != y {
            LexTransitive(x, m, y);
          }
        }
      }
    }
  }

  ghost function Least(s: set<string>): (least: string)
    requires s != {}
    ensures least in s && forall x :: x in s ==> LexLe(least, x)
  {
    assert exists l :: l in s && forall x :: x in s ==> LexLe(l, x) by {
      var l := LeastExists(s);
    }
    var l :| l in s && forall x :: x in s ==> LexLe(l, x);
    l
  }

  /** The iteration order of a `BTreeMap`/`BTreeSet` keyed by `s`, and of a vector sorted by id. */
  ghost function SortedIds(s: set<string>): (r: seq<string>)
    ensures forall x :: x in r <==> x in s
    ensures LexSorted(r)
    decreases |s|
  {
    if s == {} then []
    else
      var least := Least(s);
      var tail := SortedIds(s - {least});
      assert forall x :: x in tail ==> x in s - {least} && LexLt(least, x);
      [least] + tail
  }

  /** A sorted sequence is determined by its elements. */
  lemma {:induction false} SortedUnique(a: seq<string>, b: seq<string>)
    requires LexSorted(a) && LexSorted(b)
    requires forall x :: x in a <==> x in b
    ensures a == b
  {
    assert |a| > 0 ==> a[0] in b;
    assert |b| > 0 ==> b[0] in a;
    if a != [] {
      SortedHeadsAgree(a, b);
      forall x ensures x in a[1..] <==> x in b[1..] {
        SortedTail(a, x);
        SortedTail(b, x);
      }
      SortedUnique(a[1..], b[1..]);
      assert a == [a[0]] + a[1..] && b == [b[0]] + b[1..];
    }
  }

  lemma {:induction false} SortedTail(a: seq<string>, x: string)
    requires LexSorted(a) && a != []
    ensures x in a[1..] <==> x in a && x != a[0]
  {
    LexIrreflexive(x);
    assert a == [a[0]] + a[1..];
    if x in a[1..] {
      var j :| 0 <= j < |a[1..]| && a[1..][j] == x;
      assert LexLt(a[0], a[j + 1]);
    }
  }

  lemma {:induction false} SortedHeadsAgree(a: seq<string>, b: seq<string>)
    requires LexSorted(a) && LexSorted(b) && a != [] && b != []
    requires forall x :: x in a <==> x in b
    ensures a[0] == b[0]
  {
    assert a[0] in b && b[0] in a;
    var i :| 0 <= i < |b| && b[i] == a[0];
    var j :| 0 <= j < |a| && a[j] == b[0];
    if i > 0 && j > 0 {
      LexAsymmetric(a[0], b[0]);
    }
  }
}
