/** Small datatypes and byte-level helpers shared by the wire protocols. */
module Prelude {
  datatype Option<+T> = None | Some(value: T)

  datatype Result<+T, +E> = Success(value: T) | Failure(error: E)

  newtype byte = b: int | 0 <= b < 256

  const LF: byte := 10
  const CR: byte := 13

  /** The index of the first line feed, or the length when there is none. */
  function LineFeedAt(s: seq<byte>): (k: nat)
    ensures k <= |s|
    ensures LF !in s[..k]
    ensures k < |s| ==> s[k] == LF
  {
    if s == [] || s[0] == LF then 0
    else
      var k := 1 + LineFeedAt(s[1..]);
      assert s[..k] == [s[0]] + s[1..][..k - 1];
      k
  }

  lemma LineFeedUnique(s: seq<byte>, k: nat)
    requires k <= |s| && LF !in s[..k] && (k < |s| ==> s[k] == LF)
    ensures LineFeedAt(s) == k
  {
    var j := LineFeedAt(s);
    assert forall i | 0 <= i < j :: s[..j][i] == s[i];
    assert forall i | 0 <= i < k :: s[..k][i] == s[i];
  }

  /** Appending bytes never moves a line feed that is already there. */
  lemma LineFeedStable(s: seq<byte>, more: seq<byte>)
    ensures LineFeedAt(s) < |s| ==> LineFeedAt(s + more) == LineFeedAt(s)
    ensures LineFeedAt(s) == |s| ==> LineFeedAt(s + more) == |s| + LineFeedAt(more)
  {
    var k := LineFeedAt(s);
    if k < |s| {
      assert (s + more)[..k] == s[..k];
      LineFeedUnique(s + more, k);
    } else {
      var j := LineFeedAt(more);
      assert (s + more)[..|s| + j] == s[..k] + more[..j];
      LineFeedUnique(s + more, |s| + j);
    }
  }

  function Concat<T>(parts: seq<seq<T>>): seq<T> {
    if parts == [] then [] else parts[0] + Concat(parts[1..])
  }

  lemma {:induction false} ConcatAppend<T>(a: seq<seq<T>>, b: seq<seq<T>>)
    ensures Concat(a + b) == Concat(a) + Concat(b)
  {
    if a == [] {
      assert a + b == b;
    } else {
      assert (a + b)[1..] == a[1..] + b;
      ConcatAppend(a[1..], b);
    }
  }
}
