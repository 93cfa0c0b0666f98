/** Types and sequence functions shared by every model. */
module Common {
  type byte = x: int | 0 <= x < 256

  datatype Option<+T> = None | Some(value: T)

  datatype Result<+T> = Ok(value: T) | Err

  function Min(a: int, b: int): int {
    if a <= b then a else b
  }

  function Max(a: int, b: int): int {
    if a <= b then b else a
  }

  /** The bytes of `file` after `data` has been written at `offset`, which is at most the size. */
  function Splice<T>(file: seq<T>, offset: nat, data: seq<T>): (r: seq<T>)
    requires offset <= |file|
    ensures |r| == Max(|file|, offset + |data|)
    ensures forall p :: 0 <= p < |r| ==> r[p] == if offset <= p < offset + |data| then data[p - offset] else file[p]
  {
    file[..offset] + data + (if offset + |data| <= |file| then file[offset + |data|..] else [])
  }

  /** Writing two adjacent pieces one after the other is writing their concatenation. */
  lemma SpliceAdjacent<T>(file: seq<T>, offset: nat, a: seq<T>, b: seq<T>)
    requires offset <= |file|
    ensures Splice(Splice(file, offset, a), offset + |a|, b) == Splice(file, offset, a + b)
  {
    var twice := Splice(Splice(file, offset, a), offset + |a|, b);
    var both := Splice(file, offset, a + b);
    assert |twice| == |both|;
    assert forall p :: 0 <= p < |both| ==> twice[p] == both[p];
  }

  /** The same for two adjacent slices of what is to be written. */
  lemma SpliceOn<T>(file: seq<T>, offset: nat, data: seq<T>, done: nat, next: nat)
    requires offset <= |file| && done <= next <= |data|
    ensures Splice(Splice(file, offset, data[..done]), offset + done, data[done..next])
            == Splice(file, offset, data[..next])
  {
    SpliceAdjacent(file, offset, data[..done], data[done..next]);
    assert data[..done] + data[done..next] == data[..next];
  }

  /** A file starts with what was written at `offset` after what was there before it. */
  lemma SplicePrefix<T>(file: seq<T>, offset: nat, data: seq<T>)
    requires offset <= |file|
    ensures offset + |data| <= |Splice(file, offset, data)|
    ensures Splice(file, offset, data)[..offset + |data|] == file[..offset] + data
    ensures Splice(file, offset, data)[..offset] == file[..offset]
  {
  }

  lemma SpliceAtEnd<T>(file: seq<T>, data: seq<T>)
    ensures Splice(file, |file|, data) == file + data
  {
  }

  /** Moving the middle of a split sequence to its front. */
  lemma TakeMore<T>(s: seq<T>, k: nat, middle: seq<T>, rest: seq<T>)
    requires k <= |s| && s == s[..k] + middle + rest
    ensures k + |middle| + |rest| == |s|
    ensures s[..k + |middle|] == s[..k] + middle
    ensures s == s[..k + |middle|] + [] + rest
  {
  }

  /** Appending to a split sequence keeps the split. */
  lemma SplitAppend<T>(s: seq<T>, k: nat, middle: seq<T>, rest: seq<T>, more: seq<T>)
    requires k <= |s| && s == s[..k] + middle + rest
    ensures (s + more)[..k] == s[..k]
    ensures s + more == (s + more)[..k] + middle + (rest + more)
  {
  }

  lemma PrefixOfPrefix<T>(s: seq<T>, j: nat, k: nat)
    requires j <= k <= |s|
    ensures s[..k][..j] == s[..j]
  {
  }

  lemma Regroup<T>(a: seq<T>, b: seq<T>, c: seq<T>)
    ensures (a + b) + c == a + (b + c)
  {
  }

  lemma HeadAndTail<T>(s: seq<T>, k: nat)
    requires k <= |s|
    ensures s == s[..k] + s[k..]
  {
  }

  lemma TakeOneMore<T>(s: seq<T>, k: nat)
    requires k < |s|
    ensures s[..k + 1] == s[..k] + [s[k]]
  {
  }

  lemma TakeNext<T>(s: seq<T>, j: nat, k: nat)
    requires j <= k <= |s|
    ensures s[..j] + s[j..k] == s[..k]
  {
  }

  lemma SliceOfSlice<T>(s: seq<T>, from: nat, to: nat, j: nat, k: nat)
    requires from <= to <= |s| && j <= k <= to - from
    ensures s[from..to][j..k] == s[from + j..from + k]
  {
    forall i | 0 <= i < k - j
      ensures s[from..to][j..k][i] == s[from + j..from + k][i]
    {
      assert s[from..to][j + i] == s[from + j + i];
    }
  }

  lemma QuotientIs(n: nat, b: nat, q: nat, r: nat)
    requires n == q * b + r && r < b
    ensures n / b == q
  {
    var d := n / b - q;
    assert n == (n / b) * b + n % b;
    assert d * b == r - n % b;
    AwayFromZero(d, b);
  }

  lemma AwayFromZero(d: int, b: int)
    requires b >= 0
    ensures d >= 1 ==> d * b >= b
    ensures d <= -1 ==> d * b <= -b
  {
    if d >= 1 { assert (d - 1) * b >= 0; }
    if d <= -1 { assert (-d - 1) * b >= 0; }
  }

  predicate Distinct<T(==)>(s: seq<T>) {
    forall i, j :: 0 <= i < j < |s| ==> s[i] != s[j]
  }

  /** The parts one after the other. */
  function Joined<T>(parts: seq<seq<T>>): seq<T> {
    if parts == [] then [] else parts[0] + Joined(parts[1..])
  }

  lemma {:induction false} JoinedSnoc<T>(parts: seq<seq<T>>, last: seq<T>)
    ensures Joined(parts + [last]) == Joined(parts) + last
  {
    if parts == [] {
      assert parts + [last] == [last];
    } else {
      JoinedSnoc(parts[1..], last);
      assert (parts + [last])[1..] == parts[1..] + [last];
    }
  }
}
