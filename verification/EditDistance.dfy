/** The distance behind "did you mean": one row of the table, the recursion it computes, and what that measures. */
module EditDistance {

  function Min(a: nat, b: nat): nat {
    if a <= b then a else b
  }

  function Init(s: string): string
    requires s != []
  {
    s[..|s| - 1]
  }

  function Last(s: string): char
    requires s != []
  {
    s[|s| - 1]
  }

  function Cost(c: char, d: char): nat {
    if c == d then 0 else 1
  }

  /** Levenshtein's recursion, from the ends of the strings. */
  function Distance(a: string, b: string): nat
    decreases |a| + |b|
  {
    if a == [] then |b|
    else if b == [] then |a|
    else Min(Min(Distance(Init(a), b), Distance(a, Init(b))) + 1, Distance(Init(a), Init(b)) + Cost(Last(a), Last(b)))
  }

  // ---- the one-row table ----

  /** One cell of the full table: the distance between two prefixes. */
  function Cell(a: string, b: string, i: nat, j: nat): nat
    requires i <= |a| && j <= |b|
  {
    Distance(a[..i], b[..j])
  }

  lemma Edges(a: string, b: string, i: nat, j: nat)
    requires i <= |a| && j <= |b|
    ensures Cell(a, b, 0, j) == j && Cell(a, b, i, 0) == i
  {
  }

  lemma PrefixCell(a: string, b: string, i: nat, j: nat)
    requires 0 < i <= |a| && 0 < j <= |b|
    ensures Cell(a, b, i, j) == Min(Min(Cell(a, b, i - 1, j), Cell(a, b, i, j - 1)) + 1,
                                    Cell(a, b, i - 1, j - 1) + Cost(a[i - 1], b[j - 1]))
  {
    assert Init(a[..i]) == a[..i - 1] && Init(b[..j]) == b[..j - 1];
  }

  /** The row holds one line of the table: line `i` up to column `until`, the line before it from there on. */
  ghost predicate Holds(row: seq<nat>, a: string, b: string, i: nat, until: nat)
    requires 0 < i <= |a|
  {
    && |row| == |b| + 1
    && forall k | 0 <= k <= |b| :: row[k] == Cell(a, b, if k < until then i else i - 1, k)
  }

  /** Overwrites the line above with line `i`, keeping the one cell still needed from it. */
  method NextLine(row: array<nat>, a: string, b: string, i: nat)
    requires 0 < i <= |a| && Holds(row[..], a, b, i, 0)
    modifies row
    ensures Holds(row[..], a, b, i, |b| + 1)
  {
    var diagonal := row[0];
    row[0] := i;
    Edges(a, b, i, 0);
    var j := 1;
    while j <= |b|
      invariant 1 <= j <= |b| + 1 && diagonal == Cell(a, b, i - 1, j - 1)
      invariant Holds(row[..], a, b, i, j)
    {
      var above := row[j];
      PrefixCell(a, b, i, j);
      row[j] := Min(Min(row[j] + 1, row[j - 1] + 1), diagonal + (if a[i - 1] == b[j - 1] then 0 else 1));
      diagonal := above;
      j := j + 1;
    }
  }

  method EditDistance(a: string, b: string) returns (d: nat)
    ensures d == Distance(a, b)
  {
    var row := new nat[|b| + 1](i => i);
    forall k | 0 <= k <= |b| ensures Cell(a, b, 0, k) == k {
      Edges(a, b, 0, k);
    }
    var i := 1;
    while i <= |a|
      invariant 1 <= i <= |a| + 1 && row.Length == |b| + 1
      invariant forall k | 0 <= k <= |b| :: row[k] == Cell(a, b, i - 1, k)
    {
      NextLine(row, a, b, i);
      i := i + 1;
    }
    d := row[|b|];
    assert a[..|a|] == a && b[..|b|] == b;
  }

  // ---- the distance is a metric ----

  lemma {:induction false} Symmetric(a: string, b: string)
    ensures Distance(a, b) == Distance(b, a)
    decreases |a| + |b|
  {
    if a != [] && b != [] {
      Symmetric(Init(a), b);
      Symmetric(a, Init(b));
      Symmetric(Init(a), Init(b));
    }
  }

  lemma {:induction false} SizesBound(a: string, b: string)
    ensures Distance(a, b) <= |a| + |b|
    ensures Distance(a, b) >= |a| - |b| && Distance(a, b) >= |b| - |a|
    decreases |a| + |b|
  {
    if a != [] && b != [] {
      SizesBound(Init(a), b);
      SizesBound(a, Init(b));
      SizesBound(Init(a), Init(b));
    }
  }

  /** The distance is zero exactly between equal strings. */
  lemma {:induction false} ZeroExactlyWhenEqual(a: string, b: string)
    ensures Distance(a, b) == 0 <==> a == b
    decreases |a| + |b|
  {
    if a != [] && b != [] {
      ZeroExactlyWhenEqual(Init(a), Init(b));
      assert a == Init(a) + [Last(a)] && b == Init(b) + [Last(b)];
    }
  }

  /** A distance is at most one more than that of strings with one fewer character. */
  lemma AtMostOneMore(a: string, b: string)
    ensures a != [] ==> Distance(a, b) <= Distance(Init(a), b) + 1
    ensures b != [] ==> Distance(a, b) <= Distance(a, Init(b)) + 1
  {
  }

  lemma AtMostDiagonal(a: string, b: string)
    requires a != [] && b != []
    ensures Distance(a, b) <= Distance(Init(a), Init(b)) + Cost(Last(a), Last(b))
  {
  }

  lemma {:induction false} Triangle(a: string, b: string, c: string)
    ensures Distance(a, c) <= Distance(a, b) + Distance(b, c)
    decreases |a| + |b| + |c|, 1
  {
    if a == [] || b == [] || c == [] {
      SizesBound(a, c);
      SizesBound(a, b);
      SizesBound(b, c);
    } else if Distance(a, b) == Distance(Init(a), b) + 1 {
      Triangle(Init(a), b, c);
      AtMostOneMore(a, c);
    } else if Distance(b, c) == Distance(b, Init(c)) + 1 {
      Triangle(a, b, Init(c));
      AtMostOneMore(a, c);
    } else {
      TriangleDown(a, b, c);
    }
  }

  /** The case where the last character of the middle string is dropped on both sides. */
  lemma {:induction false} TriangleDown(a: string, b: string, c: string)
    requires a != [] && b != [] && c != []
    requires Distance(a, b) != Distance(Init(a), b) + 1 && Distance(b, c) != Distance(b, Init(c)) + 1
    ensures Distance(a, c) <= Distance(a, b) + Distance(b, c)
    decreases |a| + |b| + |c|, 0
  {
    if Distance(a, b) == Distance(a, Init(b)) + 1 {
      Triangle(a, Init(b), c);
      Triangle(a, Init(b), Init(c));
      AtMostOneMore(a, c);
    } else {
      Triangle(Init(a), Init(b), c);
      Triangle(Init(a), Init(b), Init(c));
      AtMostOneMore(a, c);
      AtMostDiagonal(a, c);
    }
  }

  // ---- the distance is the fewest single edits ----

  datatype Edit = Insert(at: nat, ch: char) | Delete(at: nat) | Replace(at: nat, ch: char) {
    predicate Fits(s: string) {
      if Insert? then at <= |s| else at < |s|
    }

    function Apply(s: string): string
      requires Fits(s)
    {
      match this
      case Insert(_, c) => s[..at] + [c] + s[at..]
      case Delete(_) => s[..at] + s[at + 1..]
      case Replace(_, c) => s[..at] + [c] + s[at + 1..]
    }
  }

  /** The edits, made in order, turn `a` into `b`. */
  predicate Turns(edits: seq<Edit>, a: string, b: string)
    decreases |edits|
  {
    if edits == [] then a == b
    else edits[0].Fits(a) && Turns(edits[1..], edits[0].Apply(a), b)
  }

  /** A common ending never makes strings further apart. */
  lemma {:induction false} CommonEnding(a: string, b: string, v: string)
    ensures Distance(a + v, b + v) <= Distance(a, b)
    decreases |v|
  {
    if v == [] {
      assert a + v == a && b + v == b;
    } else {
      CommonEnding(a, b, Init(v));
      assert Init(a + v) == a + Init(v) && Init(b + v) == b + Init(v);
    }
  }

  lemma OneMoreCharacter(u: string, c: char, v: string)
    ensures Distance(u + [c] + v, u + v) <= 1
  {
    assert Init(u + [c]) == u;
    ZeroExactlyWhenEqual(u, u);
    CommonEnding(u + [c], u, v);
  }

  lemma OneOtherCharacter(u: string, c: char, d: char, v: string)
    ensures Distance(u + [c] + v, u + [d] + v) <= 1
  {
    assert Init(u + [c]) == u == Init(u + [d]);
    ZeroExactlyWhenEqual(u, u);
    AtMostDiagonal(u + [c], u + [d]);
    CommonEnding(u + [c], u + [d], v);
  }

  lemma OneEdit(e: Edit, s: string)
    requires e.Fits(s)
    ensures Distance(s, e.Apply(s)) <= 1
  {
    var u := s[..e.at];
    match e
    case Insert(_, c) =>
      assert s == u + s[e.at..];
      OneMoreCharacter(u, c, s[e.at..]);
      Symmetric(s, e.Apply(s));
    case Delete(_) =>
      assert s == u + [s[e.at]] + s[e.at + 1..];
      OneMoreCharacter(u, s[e.at], s[e.at + 1..]);
    case Replace(_, d) =>
      assert s == u + [s[e.at]] + s[e.at + 1..];
      OneOtherCharacter(u, s[e.at], d, s[e.at + 1..]);
  }

  /** No script of edits beats the distance. */
  lemma {:induction false} NoShorterScript(edits: seq<Edit>, a: string, b: string)
    requires Turns(edits, a, b)
    ensures Distance(a, b) <= |edits|
    decreases |edits|
  {
    if edits == [] {
      ZeroExactlyWhenEqual(a, b);
    } else {
      var next := edits[0].Apply(a);
      NoShorterScript(edits[1..], next, b);
      OneEdit(edits[0], a);
      Triangle(a, next, b);
    }
  }

  lemma {:induction false} TurnsThen(edits: seq<Edit>, a: string, b: string, e: Edit)
    requires Turns(edits, a, b) && e.Fits(b)
    ensures Turns(edits + [e], a, e.Apply(b))
    decreases |edits|
  {
    if edits != [] {
      TurnsThen(edits[1..], edits[0].Apply(a), b, e);
      assert (edits + [e])[1..] == edits[1..] + [e];
    }
  }

  lemma ApplyBefore(e: Edit, s: string, c: char)
    requires e.Fits(s)
    ensures e.Fits(s + [c]) && e.Apply(s + [c]) == e.Apply(s) + [c]
  {
  }

  /** A script works the same in front of one more character. */
  lemma {:induction false} TurnsBefore(edits: seq<Edit>, a: string, b: string, c: char)
    requires Turns(edits, a, b)
    ensures Turns(edits, a + [c], b + [c])
    decreases |edits|
  {
    if edits != [] {
      TurnsBefore(edits[1..], edits[0].Apply(a), b, c);
      ApplyBefore(edits[0], a, c);
    }
  }

  lemma DropLast(rest: seq<Edit>, a: string, b: string)
    requires a != [] && Turns(rest, Init(a), b)
    ensures Turns([Delete(|a| - 1)] + rest, a, b)
  {
    assert Delete(|a| - 1).Apply(a) == Init(a) && ([Delete(|a| - 1)] + rest)[1..] == rest;
  }

  lemma AddLast(rest: seq<Edit>, a: string, b: string)
    requires b != [] && Turns(rest, a, Init(b))
    ensures Turns(rest + [Insert(|b| - 1, Last(b))], a, b)
  {
    var e := Insert(|b| - 1, Last(b));
    TurnsThen(rest, a, Init(b), e);
    assert e.Apply(Init(b)) == b;
  }

  lemma KeepLast(rest: seq<Edit>, a: string, b: string)
    requires a != [] && Turns(rest, Init(a), b)
    ensures Turns(rest, a, b + [Last(a)])
  {
    TurnsBefore(rest, Init(a), b, Last(a));
    assert a == Init(a) + [Last(a)];
  }

  lemma ReplaceLast(b: string, c: char)
    requires b != []
    ensures var e, mid := Replace(|b| - 1, Last(b)), Init(b) + [c];
      e.Fits(mid) && e.Apply(mid) == b && (c == Last(b) ==> mid == b)
  {
  }

  lemma MatchLast(rest: seq<Edit>, a: string, b: string)
    requires a != [] && b != [] && Turns(rest, Init(a), Init(b))
    ensures Last(a) == Last(b) ==> Turns(rest, a, b)
    ensures Turns(rest + [Replace(|b| - 1, Last(b))], a, b)
  {
    KeepLast(rest, a, Init(b));
    ReplaceLast(b, Last(a));
    TurnsThen(rest, a, Init(b) + [Last(a)], Replace(|b| - 1, Last(b)));
  }

  /** Some script is as short as the distance. */
  lemma {:induction false} ShortestScript(a: string, b: string) returns (edits: seq<Edit>)
    ensures Turns(edits, a, b) && |edits| == Distance(a, b)
    decreases |a| + |b|
  {
    if a == [] && b == [] {
      edits := [];
    } else if a != [] && Distance(a, b) == Distance(Init(a), b) + 1 {
      var rest := ShortestScript(Init(a), b);
      DropLast(rest, a, b);
      edits := [Delete(|a| - 1)] + rest;
    } else if b != [] && Distance(a, b) == Distance(a, Init(b)) + 1 {
      var rest := ShortestScript(a, Init(b));
      AddLast(rest, a, b);
      edits := rest + [Insert(|b| - 1, Last(b))];
    } else {
      edits := ShortestScript(Init(a), Init(b));
      MatchLast(edits, a, b);
      if Last(a) != Last(b) {
        edits := edits + [Replace(|b| - 1, Last(b))];
      }
    }
  }

  /** The computed distance is the least number of insertions, deletions and replacements. */
  lemma DistanceIsFewestEdits(a: string, b: string)
    ensures exists edits :: Turns(edits, a, b) && |edits| == Distance(a, b)
    ensures forall edits | Turns(edits, a, b) :: Distance(a, b) <= |edits|
  {
    var edits := ShortestScript(a, b);
    forall edits | Turns(edits, a, b) ensures Distance(a, b) <= |edits| {
      NoShorterScript(edits, a, b);
    }
  }
}
