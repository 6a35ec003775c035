/** Values shared by every module of the codec: bytes, and the outcomes of
    Python operations that can raise. */
module Base {

  /** One element of a Python `bytes` object. */
  type byte = x: int | 0 <= x < 256

  datatype Option<T> = None | Some(value: T)

  /** The exceptions the codec can raise; each one aborts the operation. */
  datatype Error =
    | IndexError    // `[-1]` of an empty list, or a grid row out of range
    | ValueError    // `int()` of a malformed token, or a slice assigned the wrong width
    | FileNotFound  // `open()` of a file that does not exist

  datatype Result<T> = Ok(value: T) | Err(error: Error)

  /** Concatenation of a list of lists, as `[x for sub in xss for x in sub]`. */
  function Flatten<T>(xss: seq<seq<T>>): seq<T>
  {
    if xss == [] then [] else xss[0] + Flatten(xss[1..])
  }

  lemma {:induction false} FlattenAppend<T>(a: seq<seq<T>>, b: seq<seq<T>>)
    ensures Flatten(a + b) == Flatten(a) + Flatten(b)
  {
    if a == [] {
      assert a + b == b;
    } else {
      assert (a + b)[1..] == a[1..] + b;
      FlattenAppend(a[1..], b);
    }
  }

  lemma FlattenSnoc<T>(init: seq<seq<T>>, last: seq<T>)
    ensures Flatten(init + [last]) == Flatten(init) + last
  {
    FlattenAppend(init, [last]);
    assert Flatten([last]) == last + Flatten([]);
  }

  /** A prefix one longer is the prefix and the next element. */
  lemma TakeSnoc<T>(s: seq<T>, m: nat)
    requires 0 < m <= |s|
    ensures s[..m] == s[..m - 1] + [s[m - 1]]
  {
  }

  lemma InSnoc<T>(s: seq<T>, x: T)
    requires s != []
    ensures x in s <==> x in s[..|s| - 1] || x == s[|s| - 1]
  {
    assert s == s[..|s| - 1] + [s[|s| - 1]];
  }

  /** A non-empty sequence is its first element and the rest. */
  lemma HeadTail<T>(s: seq<T>)
    requires s != []
    ensures s == [s[0]] + s[1..]
  {
  }

  lemma TakeAll<T>(s: seq<T>)
    ensures s[..|s|] == s
  {
  }

  lemma TakeDrop<T>(s: seq<T>, k: nat)
    requires k <= |s|
    ensures s == s[..k] + s[k..]
  {
  }

  /** Every element of every piece is an element of the concatenation. */
  lemma {:induction false} FlattenMember<T>(xss: seq<seq<T>>, i: nat, v: T)
    requires i < |xss| && v in xss[i]
    ensures v in Flatten(xss)
  {
    if i > 0 {
      FlattenMember(xss[1..], i - 1, v);
    }
  }

  /** `[v] * k` */
  function Fill<T>(v: T, k: nat): (r: seq<T>)
    ensures |r| == k && forall i :: 0 <= i < k ==> r[i] == v
  {
    if k == 0 then [] else [v] + Fill(v, k - 1)
  }

  lemma FillAppend<T>(v: T, j: nat, k: nat)
    ensures Fill(v, j + k) == Fill(v, j) + Fill(v, k)
  {
    assert Fill(v, j + k) == Fill(v, j) + Fill(v, k);
  }

  /** One step after another: the lists of both when both succeed, otherwise
      the first error. */
  function Concat<T>(r1: Result<seq<T>>, r2: Result<seq<T>>): (r: Result<seq<T>>)
    ensures r.Ok? <==> r1.Ok? && r2.Ok?
    ensures r.Ok? ==> r.value == r1.value + r2.value
    ensures r.Err? ==> r.error == if r1.Err? then r1.error else r2.error
  {
    match r1
    case Err(e) => Err(e)
    case Ok(a) =>
      match r2
      case Err(e) => Err(e)
      case Ok(b) => Ok(a + b)
  }

  lemma ConcatNil<T>(r: Result<seq<T>>)
    ensures Concat(Ok([]), r) == r && Concat(r, Ok([])) == r
  {
    if r.Ok? {
      assert [] + r.value == r.value && r.value + [] == r.value;
    }
  }

  lemma ConcatAssoc<T>(r1: Result<seq<T>>, r2: Result<seq<T>>, r3: Result<seq<T>>)
    ensures Concat(r1, Concat(r2, r3)) == Concat(Concat(r1, r2), r3)
  {
    if r1.Ok? && r2.Ok? && r3.Ok? {
      assert r1.value + (r2.value + r3.value) == (r1.value + r2.value) + r3.value;
    }
  }
}
