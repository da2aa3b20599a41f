/** The fixed-capacity buffer that keeps the newest values. */
module CircularBuffers {
  import opened Common

  /** The last `k` values of `s`, or all of them when there are fewer. */
  function Last<T>(s: seq<T>, k: nat): (r: seq<T>)
    ensures |r| == if |s| <= k then |s| else k
  {
    if |s| <= k then s else s[|s| - k..]
  }

  class CircularBuffer<T(0)> {
    var buffer: array<T>
    var head: nat
    var count: nat
    const maxSize: nat
    ghost var sinceClear: seq<T>   // every value inserted since the last clear

    ghost predicate Valid()
      reads this, buffer
    {
      && buffer.Length == maxSize
      && count <= maxSize
      && (if count < maxSize || maxSize == 0 then head == 0 else head < maxSize)
      && Contents() == Last(sinceClear, maxSize)
    }

    /** The buffered values, oldest first. */
    ghost function Contents(): (s: seq<T>)
      reads this, buffer
      requires count <= buffer.Length && head <= buffer.Length
    {
      View(buffer[..], head, count)
    }

    constructor (size: nat)
      ensures Valid() && fresh(buffer) && maxSize == size
      ensures sinceClear == []
    {
      buffer := new T[size];
      head, count := 0, 0;
      maxSize := size;
      sinceClear := [];
    }

    method Clear()
      requires Valid()
      modifies this
      ensures Valid() && buffer == old(buffer)
      ensures sinceClear == []
    {
      head, count := 0, 0;
      sinceClear := [];
    }

    method Insert(value: T) returns (o: Outcome)
      requires Valid()
      modifies this, buffer
      ensures Valid() && buffer == old(buffer)
      ensures o == if maxSize < 1 then Fail(RuntimeError) else Pass
      ensures sinceClear == if o.Pass? then old(sinceClear) + [value] else old(sinceClear)
    {
      if maxSize < 1 {
        return Fail(RuntimeError);
      }
      ghost var b := buffer[..];
      LastAppend(sinceClear, value, maxSize);
      hide View, Last, Wrap;
      sinceClear := sinceClear + [value];
      if count < maxSize {
        ViewGrow(b, count, value);
        buffer[count] := value;
        assert buffer[..] == b[count := value];
        count := count + 1;
      } else {
        ViewReplace(b, head, value);
        buffer[head] := value;
        assert buffer[..] == b[head := value];
        head := Wrap(head + 1, maxSize);
      }
      return Pass;
    }

    method Size() returns (n: nat)
      requires Valid()
      ensures n == |Contents()|
    {
      n := count;
    }

    method Value(index: nat) returns (r: Result<T>)
      requires Valid()
      ensures r == if index < |Contents()| then Success(Contents()[index]) else Failure(InvalidArgument)
    {
      if index >= count {
        return Failure(InvalidArgument);
      }
      ViewAt(buffer[..], head, count, index);
      hide View, Last, Wrap;
      return Success(buffer[Wrap(head + index, maxSize)]);
    }

    method MakeVector() returns (v: seq<T>)
      requires Valid()
      ensures v == Contents()
    {
      if head == 0 {
        v := buffer[..count];
      } else {
        v := buffer[head..] + buffer[..head];
        assert buffer[..][head..] == buffer[head..] && buffer[..][..head] == buffer[..head];
      }
    }

    method MakeSlice(idxStart: nat, idxEnd: nat) returns (r: Result<seq<T>>)
      requires Valid()
      ensures r == if idxStart < idxEnd <= |Contents()| then Success(Contents()[idxStart..idxEnd])
                   else Failure(InvalidArgument)
    {
      if idxStart >= count || idxEnd > count || idxEnd <= idxStart {
        return Failure(InvalidArgument);
      }
      ViewSlice(buffer[..], head, count, idxStart, idxEnd);
      hide View, Last, Wrap;
      var start := Wrap(head + idxStart, maxSize);
      var end := Wrap(head + idxEnd - 1, maxSize) + 1;
      var v;
      if end > start {
        v := buffer[start..end];
      } else {
        v := buffer[start..] + buffer[..end];
      }
      SameSlices(buffer, start, end);
      return Success(v);
    }
  }

  lemma SameSlices<T>(a: array<T>, start: nat, end: nat)
    requires start <= a.Length && end <= a.Length
    ensures a[start..] == a[..][start..] && a[..end] == a[..][..end]
    ensures start <= end ==> a[start..end] == a[..][start..end]
  {
  }

  /** The values held in `b` when `count` are valid and the oldest is at `head`. */
  ghost function View<T>(b: seq<T>, head: nat, count: nat): (s: seq<T>)
    requires head <= |b| && count <= |b|
    ensures |s| == count
  {
    if count < |b| then b[..count] else Rotated(b, head)
  }

  /** `b` read from position `head` round to `head`. */
  ghost function Rotated<T>(b: seq<T>, head: nat): seq<T>
    requires head <= |b|
  {
    b[head..] + b[..head]
  }

  lemma ViewGrow<T>(b: seq<T>, count: nat, x: T)
    requires count < |b|
    ensures View(b[count := x], 0, count + 1) == Last(View(b, 0, count) + [x], |b|)
  {
  }

  lemma ViewReplace<T>(b: seq<T>, head: nat, x: T)
    requires head < |b|
    ensures var next := if head + 1 < |b| then head + 1 else 0;
            View(b[head := x], next, |b|) == Last(View(b, head, |b|) + [x], |b|)
  {
    assert Last(Rotated(b, head) + [x], |b|) == Rotated(b, head)[1..] + [x];
  }

  lemma ViewAt<T>(b: seq<T>, head: nat, count: nat, i: nat)
    requires i < count <= |b| && head < |b| && (count < |b| ==> head == 0)
    ensures View(b, head, count)[i] == b[if head + i < |b| then head + i else head + i - |b|]
  {
  }

  lemma ViewSlice<T>(b: seq<T>, head: nat, count: nat, i: nat, j: nat)
    requires i < j <= count <= |b| && head < |b| && (count < |b| ==> head == 0)
    ensures View(b, head, count)[i..j] ==
            if head + j <= |b| then b[head + i..head + j]
            else if head + i < |b| then b[head + i..] + b[..head + j - |b|]
            else b[head + i - |b|..head + j - |b|]
  {
    var r := View(b, head, count);
    var v := if head + j <= |b| then b[head + i..head + j]
             else if head + i < |b| then b[head + i..] + b[..head + j - |b|]
             else b[head + i - |b|..head + j - |b|];
    assert |v| == j - i;
    forall k | 0 <= k < j - i ensures r[i..j][k] == v[k] {
      ViewAt(b, head, count, i + k);
    }
    hide View;
    assert r[i..j] == v;
  }

  /** The remainder of a position less than twice round the buffer. */
  function Wrap(a: nat, n: nat): (r: nat)
    requires 0 < n && a < 2 * n
    ensures r == if a < n then a else a - n
  {
    WrapOnce(a, n);
    a % n
  }

  lemma WrapOnce(a: nat, n: nat)
    requires n > 0 && a < 2 * n
    ensures a % n == if a < n then a else a - n
  {
    if a < n {
      assert a == 0 * n + a;
    } else {
      assert a == 1 * n + (a - n);
    }
  }

  /** Forgetting the oldest values early does not change what is kept. */
  lemma LastAppend<T>(s: seq<T>, x: T, k: nat)
    ensures Last(s + [x], k) == Last(Last(s, k) + [x], k)
  {
    if |s| > k > 0 {
      var a, b := s + [x], Last(s, k) + [x];
      assert a[|a| - k..] == b[1..];
    }
  }

  // ----- whole runs

  datatype Op<T> = InsertOp(value: T) | ClearOp

  /** One operation on the buffered values, as the class performs it. */
  function Apply<T>(contents: seq<T>, op: Op<T>, k: nat): seq<T> {
    match op
    case InsertOp(x) => Last(contents + [x], k)
    case ClearOp => []
  }

  function Run<T>(ops: seq<Op<T>>, k: nat): seq<T> {
    if ops == [] then [] else Apply(Run(ops[..|ops| - 1], k), ops[|ops| - 1], k)
  }

  /** The values inserted after the last clear of a run. */
  function SinceClear<T>(ops: seq<Op<T>>): seq<T> {
    if ops == [] then []
    else
      match ops[|ops| - 1]
      case InsertOp(x) => SinceClear(ops[..|ops| - 1]) + [x]
      case ClearOp => []
  }

  /** After any run the buffer holds the last `k` values inserted since the last clear. */
  lemma {:induction false} RunKeepsNewest<T>(ops: seq<Op<T>>, k: nat)
    ensures Run(ops, k) == Last(SinceClear(ops), k)
  {
    if ops != [] {
      RunKeepsNewest(ops[..|ops| - 1], k);
      match ops[|ops| - 1]
      case InsertOp(x) => LastAppend(SinceClear(ops[..|ops| - 1]), x, k);
      case ClearOp =>
    }
  }
}
