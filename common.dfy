/** Small value types and sequence helpers shared by every module of the model. */
module Common {

  datatype Option<T> = None | Some(value: T)

  /** A C++ `int` on the platforms the game targets. */
  type Int32 = x: int | -0x8000_0000 <= x < 0x8000_0000

  /** A C++ `size_t` on a 64-bit platform. */
  type Size = x: int | 0 <= x < 0x1_0000_0000_0000_0000

  /** An SDL `Uint32` (millisecond tick counts). */
  type Uint32 = x: int | 0 <= x < 0x1_0000_0000

  /** `::tolower` in the "C" locale: only 'A'..'Z' change. */
  function LowerChar(c: char): (r: char)
    ensures !('A' <= r <= 'Z')
    ensures 'a' <= c <= 'z' ==> r == c
  {
    if 'A' <= c <= 'Z' then (c as int + 32) as char else c
  }

  function Lower(s: string): (r: string)
    ensures |r| == |s|
    ensures forall i :: 0 <= i < |s| ==> r[i] == LowerChar(s[i])
  {
    seq(|s|, i requires 0 <= i < |s| => LowerChar(s[i]))
  }

  /** C++ `/` on `int`: the quotient is rounded toward zero (Dafny's `/` is Euclidean). */
  function TruncDiv(a: int, b: int): (q: int)
    requires b > 0
    ensures a >= 0 ==> q * b <= a < q * b + b
    ensures a < 0 ==> q * b - b < a <= q * b
  {
    if a >= 0 then a / b else -((-a) / b)
  }

  function Max(a: int, b: int): (m: int)
    ensures m >= a && m >= b && (m == a || m == b)
  {
    if a >= b then a else b
  }

  predicate NoDuplicates<T(==)>(s: seq<T>)
  {
    forall i, j :: 0 <= i < j < |s| ==> s[i] != s[j]
  }

  function Reverse<T>(s: seq<T>): (r: seq<T>)
    ensures |r| == |s|
    ensures forall i :: 0 <= i < |s| ==> r[i] == s[|s| - 1 - i]
  {
    seq(|s|, i requires 0 <= i < |s| => s[|s| - 1 - i])
  }

  /** Prepending the next element of `s` to the reversal of its prefix. */
  lemma ReversePrefixStep<T>(s: seq<T>, j: nat)
    requires j < |s|
    ensures Reverse(s[..j + 1]) == [s[j]] + Reverse(s[..j])
  {
    var a, b := Reverse(s[..j + 1]), [s[j]] + Reverse(s[..j]);
    assert |a| == |b|;
    forall i | 0 <= i < |a| ensures a[i] == b[i] {
      if i > 0 {
        assert b[i] == Reverse(s[..j])[i - 1];
      }
    }
  }

  /** The first position of `x` in `s` (`std::find`), or -1 when absent. */
  function IndexOf<T(==)>(s: seq<T>, x: T): (j: int)
    ensures -1 <= j < |s|
    ensures j == -1 <==> x !in s
    ensures j >= 0 ==> s[j] == x && x !in s[..j]
  {
    if s == [] then -1
    else if s[0] == x then 0
    else
      var r := IndexOf(s[1..], x);
      assert s[1..][..(if r >= 0 then r else 0)] == s[1..(if r >= 0 then r + 1 else 1)];
      if r == -1 then -1 else r + 1
  }

  /** Appending the element before a suffix to the reversal of that suffix. */
  lemma ReverseSuffixStep<T>(s: seq<T>, j: nat)
    requires j < |s|
    ensures Reverse(s[j..]) == Reverse(s[j + 1..]) + [s[j]]
  {
    var a, b := Reverse(s[j..]), Reverse(s[j + 1..]) + [s[j]];
    assert |a| == |b|;
    forall i | 0 <= i < |a| ensures a[i] == b[i] {
      if i < |a| - 1 {
        assert b[i] == Reverse(s[j + 1..])[i];
      }
    }
  }
}
