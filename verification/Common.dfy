/** Values and facts shared by the models. */
module Common {
  datatype Option<+T> = None | Some(value: T)

  /** One byte of a buffer. */
  type byte = x: int | 0 <= x < 256

  predicate NoDuplicates<T(==)>(s: seq<T>) {
    forall i, j :: 0 <= i < j < |s| ==> s[i] != s[j]
  }

  lemma ModUnique(x: int, n: int, q: int, r: int)
    requires 0 <= r < n && x == n * q + r
    ensures x % n == r && x / n == q
  {
    var q', r' := x / n, x % n;
    assert n * (q - q') == r' - r;
    if q > q' { MulAtLeast(n, q - q'); }
    if q < q' { MulAtLeast(n, q' - q); }
  }

  lemma MulAtLeast(n: int, k: int)
    requires n >= 0 && k >= 1
    ensures n * k >= n
  {
  }

  lemma MulMonotone(a: nat, b: nat, c: nat)
    requires a <= b
    ensures a * c <= b * c
  {
    assert b * c == a * c + (b - a) * c;
  }

  lemma MulStep(n: nat, k: nat)
    requires n > 0
    ensures n * k == (n - 1) * k + k && (n - 1) * k >= 0
  {
    assert n * k == ((n - 1) + 1) * k;
  }

  lemma ModShift(x: int, n: int)
    requires n > 0
    ensures (n + x) % n == x % n
  {
    assert n + x == n * (x / n + 1) + x % n;
    ModUnique(n + x, n, x / n + 1, x % n);
  }

  lemma DropTake<T>(a: seq<T>, b: seq<T>)
    ensures (a + b)[|a|..] == b && (a + b)[..|a|] == a
  {
  }

  lemma UpdateTwice<K, V>(m: map<K, V>, k: K, v: V, w: V)
    ensures m[k := v][k := w] == m[k := w]
  {
  }

  lemma CutInThree<T>(s: seq<T>, i: nat, j: nat)
    requires i <= j <= |s|
    ensures s == s[..i] + (s[i..j] + s[j..])
  {
    var rest := s[i..j] + s[j..];
    forall k | i <= k < |s| ensures rest[k - i] == s[k] { }
    forall k | 0 <= k < |s| ensures (s[..i] + rest)[k] == s[k] { }
  }

  lemma SliceOfSlice<T>(s: seq<T>, at: nat, n: nat, from: nat, to: nat)
    requires at + n <= |s| && from <= to <= n
    ensures s[at..at + n][from..to] == s[at + from..at + to]
  {
    var a, b := s[at..at + n][from..to], s[at + from..at + to];
    forall k | 0 <= k < to - from ensures a[k] == b[k] { assert a[k] == s[at..at + n][from + k]; }
  }

  lemma ConcatAssoc<T>(a: seq<T>, b: seq<T>, c: seq<T>)
    ensures a + b + c == a + (b + c)
  {
  }
}
