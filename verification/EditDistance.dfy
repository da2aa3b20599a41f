/** The distance the periodicity detector approximates: inserting or deleting a
    record costs 1, replacing one costs 2 (a deletion and an insertion). */
module EditDistance {

  datatype Edit = Keep | Insert | Delete

  /** `script`, read left to right, turns `a` into `b`; `Insert` takes its record from `b`. */
  ghost predicate Transforms<T>(script: seq<Edit>, a: seq<T>, b: seq<T>)
    decreases |script|
  {
    if script == [] then
      a == [] && b == []
    else
      var rest := script[..|script| - 1];
      match script[|script| - 1]
      case Keep =>
        && a != [] && b != [] && a[|a| - 1] == b[|b| - 1]
        && Transforms(rest, a[..|a| - 1], b[..|b| - 1])
      case Insert => b != [] && Transforms(rest, a, b[..|b| - 1])
      case Delete => a != [] && Transforms(rest, a[..|a| - 1], b)
  }

  function Cost(script: seq<Edit>): nat
    decreases |script|
  {
    if script == [] then 0
    else Cost(script[..|script| - 1]) + if script[|script| - 1].Keep? then 0 else 1
  }

  function Min(x: int, y: int): int {
    if x <= y then x else y
  }

  /** The distance by the recurrence over the last records. */
  function Distance<T(==)>(a: seq<T>, b: seq<T>): nat
    decreases |a| + |b|
  {
    if a == [] then |b|
    else if b == [] then |a|
    else
      var a', b' := a[..|a| - 1], b[..|b| - 1];
      Min(Min(Distance(a', b) + 1, Distance(a, b') + 1),
          Distance(a', b') + if a[|a| - 1] == b[|b| - 1] then 0 else 2)
  }

  /** No script is cheaper than the distance. */
  lemma {:induction false} DistanceIsLeast<T>(script: seq<Edit>, a: seq<T>, b: seq<T>)
    requires Transforms(script, a, b)
    ensures Distance(a, b) <= Cost(script)
    decreases |script|
  {
    if script != [] {
      var rest := script[..|script| - 1];
      match script[|script| - 1]
      case Keep => DistanceIsLeast(rest, a[..|a| - 1], b[..|b| - 1]);
      case Insert => DistanceIsLeast(rest, a, b[..|b| - 1]);
      case Delete => DistanceIsLeast(rest, a[..|a| - 1], b);
    }
  }

  /** Some script attains it. */
  lemma {:induction false} DistanceIsAttained<T>(a: seq<T>, b: seq<T>) returns (script: seq<Edit>)
    ensures Transforms(script, a, b) && Cost(script) == Distance(a, b)
    decreases |a| + |b|
  {
    if a == [] && b == [] {
      script := [];
    } else if a == [] {
      var s := DistanceIsAttained(a, b[..|b| - 1]);
      script := Append(s, Insert);
    } else if b == [] {
      var s := DistanceIsAttained(a[..|a| - 1], b);
      script := Append(s, Delete);
    } else {
      var a', b' := a[..|a| - 1], b[..|b| - 1];
      if Distance(a, b) == Distance(a', b) + 1 {
        var s := DistanceIsAttained(a', b);
        script := Append(s, Delete);
      } else if Distance(a, b) == Distance(a, b') + 1 {
        var s := DistanceIsAttained(a, b');
        script := Append(s, Insert);
      } else if a[|a| - 1] == b[|b| - 1] {
        var s := DistanceIsAttained(a', b');
        script := Append(s, Keep);
      } else {
        var s := DistanceIsAttained(a', b');
        var t := Append(s, Delete);
        script := Append(t, Insert);
      }
    }
  }

  lemma Append(s: seq<Edit>, e: Edit) returns (t: seq<Edit>)
    ensures t == s + [e] && t != [] && t[..|t| - 1] == s && t[|t| - 1] == e
    ensures Cost(t) == Cost(s) + if e.Keep? then 0 else 1
  {
    t := s + [e];
    assert t[..|t| - 1] == s;
  }

  /** A distance of zero means equality. */
  lemma {:induction false} ZeroDistance<T>(a: seq<T>, b: seq<T>)
    ensures Distance(a, b) == 0 <==> a == b
    decreases |a|
  {
    if a != [] && b != [] {
      var a', b' := a[..|a| - 1], b[..|b| - 1];
      ZeroDistance(a', b');
      assert a == a' + [a[|a| - 1]] && b == b' + [b[|b| - 1]];
    }
  }
}
