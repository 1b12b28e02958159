/** Raw bytes, as the C++ code sees them through `char*`. */
module Bytes {
  type Byte = bv8
  type ByteString = seq<Byte>

  datatype Option<+T> = None | Some(value: T)

  function Min(a: int, b: int): (m: int)
    ensures m <= a && m <= b && (m == a || m == b)
  {
    if a < b then a else b
  }

  function Max(a: int, b: int): (m: int)
    ensures m >= a && m >= b && (m == a || m == b)
  {
    if a < b then b else a
  }

  ghost predicate NoDup<T>(q: seq<T>) {
    forall i, j :: 0 <= i < j < |q| ==> q[i] != q[j]
  }

  lemma PrefixNext<T>(s: seq<T>, k: nat)
    requires k < |s|
    ensures s[..k + 1] == s[..k] + [s[k]]
  {
  }

  /** The first position from `from` on that holds c, or the length if none does. */
  ghost function IndexOf(s: ByteString, c: Byte, from: nat): (i: nat)
    requires from <= |s|
    ensures from <= i <= |s|
    ensures c !in s[from..i]
    ensures i < |s| ==> s[i] == c
    decreases |s| - from
  {
    if from == |s| || s[from] == c then from
    else
      var i := IndexOf(s, c, from + 1);
      assert s[from..i] == [s[from]] + s[from + 1..i];
      i
  }

  lemma {:induction false} IndexOfIsFirst(s: ByteString, c: Byte, from: nat, i: nat)
    requires from <= i <= |s| && c !in s[from..i]
    requires i < |s| ==> s[i] == c
    ensures IndexOf(s, c, from) == i
    decreases |s| - from
  {
    if from == i {
    } else {
      assert s[from] == s[from..i][0] && s[from + 1..i] == s[from..i][1..];
      IndexOfIsFirst(s, c, from + 1, i);
    }
  }

  /** A C string in a buffer: the bytes before the first zero. */
  function CString(field: ByteString): (s: ByteString)
    ensures NulFree(s) && s <= field
    ensures |s| < |field| ==> field[|s|] == 0
  {
    if field == [] || field[0] == 0 then [] else [field[0]] + CString(field[1..])
  }

  predicate NulFree(s: ByteString) {
    forall i :: 0 <= i < |s| ==> s[i] != 0
  }

  lemma {:induction false} CStringOfString(s: ByteString)
    requires NulFree(s)
    ensures CString(s) == s
  {
    if s == [] {
    } else {
      assert forall i :: 0 <= i < |s| - 1 ==> s[1..][i] == s[i + 1];
      CStringOfString(s[1..]);
    }
  }
}
