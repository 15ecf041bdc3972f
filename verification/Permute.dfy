/** The in-place block exchange of src/argv_getopt.inl. */
module Permute {
  import opened Orbits

  /** Euclid's loop. */
  method Gcd(x: nat, y: nat) returns (g: nat)
    requires y > 0
    ensures IsGcd(g, x, y)
  {
    var a, b := x, y;
    var c := a % b;
    while c != 0
      invariant b > 0 && c == a % b
      invariant forall d :: IsGcd(d, a, b) ==> IsGcd(d, x, y)
      decreases c
    {
      forall d | IsGcd(d, b, c)
        ensures IsGcd(d, a, b)
      {
        GcdStep(d, a, b);
      }
      a, b := b, c;
      c := a % b;
    }
    GcdBase(a, b);
    g := b;
  }

  function Quotient(x: nat, y: nat): nat
    requires y > 0
  {
    x / y
  }

  /** What the exchange leaves: the second block followed by the first, the rest untouched. */
  function Exchanged<T>(s: seq<T>, start: nat, mid: nat, end: nat): (r: seq<T>)
    requires start <= mid <= end <= |s|
    ensures |r| == |s|
  {
    s[..start] + s[mid..end] + s[start..mid] + s[end..]
  }

  /** The position, counted from the start of the blocks, whose element ends up at `q`. */
  function Origin(nnonopts: nat, nopts: nat, q: nat): nat
    requires q < nnonopts + nopts
  {
    if q < nopts then q + nnonopts else q - nopts
  }

  lemma OriginOfNext(nnonopts: nat, nopts: nat, q: nat)
    requires 0 < nnonopts && 0 < nopts && q < nnonopts + nopts
    ensures Origin(nnonopts, nopts, Next(nnonopts + nopts, nopts, q)) == q
  {
  }

  /** The gcd of the block lengths splits both the circle and the step. */
  lemma BlockCircle(nnonopts: nat, nopts: nat, g: nat) returns (length: nat, turns: nat, u: int, v: int)
    requires 0 < nnonopts && 0 < nopts && IsGcd(g, nnonopts, nopts)
    ensures Circle(nnonopts + nopts, nopts, g, length, turns, u, v)
    ensures length == (nnonopts + nopts) / g && 0 < length
    ensures nnonopts % g == 0 && nopts % g == 0
  {
    var h, x, y := Bezout(nnonopts, nopts);
    GcdUnique(g, h, nnonopts, nopts);
    var p :| Multiple(p, g) == nnonopts;
    var q :| Multiple(q, g) == nopts;
    MulBounds(p, g);
    MulBounds(q, g);
    Distribute(p, -q, g);
    length, turns := p + q, q;
    ModUnique(nnonopts + nopts, p + q, 0, g);
    ModUnique(nnonopts, p, 0, g);
    ModUnique(nopts, q, 0, g);
    u, v := y - x, x;
    Distribute(y, x, nopts);
    Distribute(x, -1, nnonopts + nopts);
  }

  /** A closed walk: consecutive positions are one step apart, none repeats, the last is the first again. */
  ghost predicate Cycle(walk: seq<nat>, size: nat, step: nat) {
    && 0 < step < size && |walk| >= 2
    && (forall j :: 0 <= j < |walk| ==> walk[j] < size)
    && (forall j :: 0 < j < |walk| ==> Follows(walk, size, step, j))
    && Distinct(walk)
    && walk[|walk| - 1] == walk[0]
  }

  /** No index but the last repeats an earlier one. */
  ghost predicate Distinct(path: seq<nat>) {
    forall i, j :: 0 <= i < j < |path| - 1 ==> path[i] != path[j]
  }

  ghost predicate Follows(walk: seq<nat>, size: nat, step: nat, j: nat)
    requires 0 < j < |walk| && 0 < step < size && walk[j - 1] < size
  {
    walk[j] == Next(size, step, walk[j - 1])
  }

  /** The residue classes of the positions. */
  ghost function Classes(size: nat, g: nat): (cls: seq<nat>)
    requires g > 0
    ensures |cls| == size
    ensures forall q :: 0 <= q < size ==> cls[q] < g
  {
    seq(size, q requires 0 <= q => q % g)
  }

  /** The positions of the walk from `c`, the last one included. */
  ghost function Positions(size: nat, step: nat, c: nat, length: nat): (walk: seq<nat>)
    requires 0 < step < size && c < size
    ensures |walk| == length + 1
    ensures forall j :: 0 <= j <= length ==> walk[j] == Walk(size, step, c, j)
  {
    seq(length + 1, j requires 0 <= j => Walk(size, step, c, j))
  }

  lemma PositionsDistinct(size: nat, step: nat, g: nat, length: nat, turns: nat, u: int, v: int, c: nat)
    requires Circle(size, step, g, length, turns, u, v)
    requires c < size && 0 < length && 0 < step < size && 0 < g
    ensures Distinct(Positions(size, step, c, length))
  {
    hide Circle, Walk;
    var walk := Positions(size, step, c, length);
    forall i, j | 0 <= i < j < |walk| - 1
      ensures walk[i] != walk[j]
    {
      WalkInjective(size, step, g, length, turns, u, v, c, i, j);
    }
  }

  lemma PositionsFollow(size: nat, step: nat, c: nat, length: nat)
    requires c < size && 0 < step < size
    ensures var walk := Positions(size, step, c, length);
      && walk[0] == c
      && (forall j :: 0 <= j < |walk| ==> walk[j] < size)
      && (forall j :: 0 < j < |walk| ==> Follows(walk, size, step, j))
  {
    hide Next;
    var walk := Positions(size, step, c, length);
    forall j | 0 < j < |walk|
      ensures Follows(walk, size, step, j)
    {
      assert Walk(size, step, c, j) == Next(size, step, Walk(size, step, c, j - 1));
    }
  }

  lemma PositionsInClass(size: nat, step: nat, g: nat, length: nat, turns: nat, u: int, v: int, c: nat)
    requires Circle(size, step, g, length, turns, u, v)
    requires c < size && 0 < length && 0 < step < size && 0 < g
    ensures var walk := Positions(size, step, c, length);
      forall j :: 0 <= j < |walk| ==> walk[j] < size && Classes(size, g)[walk[j]] == c % g
  {
    hide Circle, Walk;
    var walk := Positions(size, step, c, length);
    forall j | 0 <= j < |walk|
      ensures walk[j] < size && Classes(size, g)[walk[j]] == c % g
    {
      WalkStaysInClass(size, step, g, length, turns, u, v, c, j);
    }
  }

  lemma PositionsCover(size: nat, step: nat, g: nat, length: nat, turns: nat, u: int, v: int, c: nat)
    requires Circle(size, step, g, length, turns, u, v)
    requires c < size && 0 < length && 0 < step < size && 0 < g
    ensures var walk := Positions(size, step, c, length);
      forall q :: 0 <= q < size && Classes(size, g)[q] == c % g ==> q in walk[..length]
  {
    hide Circle, Walk;
    var walk := Positions(size, step, c, length);
    forall q | 0 <= q < size && Classes(size, g)[q] == c % g
      ensures q in walk[..length]
    {
      var j := WalkCovers(size, step, g, length, turns, u, v, c, q);
      assert walk[..length][j] == q;
    }
  }

  /** The walk from `c` is a cycle through exactly the positions of c's class. */
  lemma ClassIsCycle(size: nat, step: nat, g: nat, length: nat, turns: nat, u: int, v: int, c: nat)
    returns (walk: seq<nat>)
    requires Circle(size, step, g, length, turns, u, v)
    requires c < size && 0 < length && 0 < step < size && 0 < g
    ensures |walk| == length + 1 && walk[0] == c && Cycle(walk, size, step)
    ensures forall q :: 0 <= q < size && Classes(size, g)[q] == c % g ==> q in walk[..length]
    ensures forall j :: 0 <= j < |walk| ==> Classes(size, g)[walk[j]] == c % g
  {
    hide Circle, Walk, Classes, Distinct, Follows, Positions;
    walk := Positions(size, step, c, length);
    PositionsFollow(size, step, c, length);
    PositionsDistinct(size, step, g, length, turns, u, v, c);
    WalkCloses(size, step, g, length, turns, u, v, c);
    PositionsInClass(size, step, g, length, turns, u, v, c);
    PositionsCover(size, step, g, length, turns, u, v, c);
  }

  /** Progress of the exchange: the classes below `i` hold their final elements, the others the old ones. */
  ghost predicate ClassesDone<T>(was: seq<T>, now: seq<T>, start: nat, nnonopts: nat, nopts: nat,
                                 cls: seq<nat>, i: nat)
    requires start + nnonopts + nopts <= |was| == |now| && |cls| == nnonopts + nopts
  {
    forall q :: 0 <= q < |cls| ==>
      now[start + q] == was[start + (if cls[q] < i then Origin(nnonopts, nopts, q) else q)]
  }

  /** The array indices of a walk. */
  ghost function Shifted(walk: seq<nat>, start: nat): (path: seq<nat>)
    ensures |path| == |walk|
  {
    seq(|walk|, j requires 0 <= j < |walk| => start + walk[j])
  }

  /** A closed path through distinct indices below `bound`. */
  ghost predicate Closed(path: seq<nat>, bound: nat) {
    && |path| >= 2
    && (forall j :: 0 <= j < |path| ==> path[j] < bound)
    && Distinct(path)
    && path[|path| - 1] == path[0]
  }

  ghost predicate PassedOn<T>(was: seq<T>, now: seq<T>, path: seq<nat>, m: nat)
    requires 0 < m < |path| && path[m] < |now| && path[m - 1] < |was|
  {
    now[path[m]] == was[path[m - 1]]
  }

  /** Progress of one walk: everything up to step `j` has been passed on, the start holds what was last lifted. */
  ghost predicate WalkDone<T>(was: seq<T>, now: seq<T>, path: seq<nat>, j: nat)
    requires |was| == |now| && Closed(path, |now|) && j < |path|
  {
    && (forall m :: 1 <= m <= j && m < |path| - 1 ==> PassedOn(was, now, path, m))
    && (forall m :: j < m < |path| - 1 ==> now[path[m]] == was[path[m]])
    && now[path[0]] == was[path[if j < |path| - 1 then j else j - 1]]
    && (forall k :: 0 <= k < |now| && k !in path ==> now[k] == was[k])
  }

  /** The three assignments of the inner loop, seen on values. */
  function Swapped<T>(s: seq<T>, x: nat, y: nat): (r: seq<T>)
    requires x < |s| && y < |s|
    ensures |r| == |s|
  {
    s[x := s[y]][y := s[x]]
  }

  lemma WalkStep<T>(before: seq<T>, now: seq<T>, path: seq<nat>, j: nat)
    requires |before| == |now| && Closed(path, |now|) && j + 1 < |path|
    requires WalkDone(before, now, path, j)
    ensures WalkDone(before, Swapped(now, path[j + 1], path[0]), path, j + 1)
  {
    var now' := Swapped(now, path[j + 1], path[0]);
    if j + 1 == |path| - 1 {
      assert now' == now;
    } else {
      forall m | 1 <= m <= j + 1 && m < |path| - 1
        ensures PassedOn(before, now', path, m)
      {
        assert m <= j ==> PassedOn(before, now, path, m);
      }
    }
  }

  /** After a whole walk each of its positions holds what its predecessor held. */
  lemma WholeWalk<T>(before: seq<T>, now: seq<T>, path: seq<nat>, j: nat)
    requires |before| == |now| && Closed(path, |now|) && 0 < j < |path|
    requires WalkDone(before, now, path, |path| - 1)
    ensures now[path[j]] == before[path[j - 1]]
  {
    assert j < |path| - 1 ==> PassedOn(before, now, path, j);
  }

  lemma OffTheWalk<T>(before: seq<T>, now: seq<T>, path: seq<nat>, j: nat, k: nat)
    requires |before| == |now| && Closed(path, |now|) && j < |path| && k < |now| && k !in path
    requires WalkDone(before, now, path, j)
    ensures now[k] == before[k]
  {
  }

  lemma WalkBegins<T>(before: seq<T>, path: seq<nat>)
    requires Closed(path, |before|)
    ensures WalkDone(before, before, path, 0)
  {
  }

  /** One walk through class `i` completes that class and touches no other. */
  lemma CycleDone<T>(was: seq<T>, before: seq<T>, now: seq<T>, start: nat, nnonopts: nat, nopts: nat,
                     cls: seq<nat>, walk: seq<nat>, i: nat)
    requires start + nnonopts + nopts <= |was| == |before| == |now| && 0 < nnonopts
    requires IsWalkOf(nnonopts, nopts, cls, walk, i)
    requires ClassesDone(was, before, start, nnonopts, nopts, cls, i)
    requires Closed(Shifted(walk, start), |now|)
    requires WalkDone(before, now, Shifted(walk, start), |walk| - 1)
    ensures ClassesDone(was, now, start, nnonopts, nopts, cls, i + 1)
  {
    hide WalkDone, Closed, Distinct;
    forall q | 0 <= q < |cls|
      ensures now[start + q] == was[start + (if cls[q] < i + 1 then Origin(nnonopts, nopts, q) else q)]
    {
      if cls[q] == i {
        OnTheWalk(before, now, start, nnonopts, nopts, cls, walk, i, q);
        var o := Origin(nnonopts, nopts, q);
        assert before[start + o] == was[start + o];
      } else {
        assert start + q !in Shifted(walk, start);
        OffTheWalk(before, now, Shifted(walk, start), |walk| - 1, start + q);
      }
    }
  }

  /** A position of the walk's class has received the element of its origin, which is in the class too. */
  lemma OnTheWalk<T>(before: seq<T>, now: seq<T>, start: nat, nnonopts: nat, nopts: nat,
                     cls: seq<nat>, walk: seq<nat>, i: nat, q: nat)
    requires start + nnonopts + nopts <= |before| == |now| && 0 < nnonopts
    requires IsWalkOf(nnonopts, nopts, cls, walk, i) && q < |cls| && cls[q] == i
    requires Closed(Shifted(walk, start), |now|)
    requires WalkDone(before, now, Shifted(walk, start), |walk| - 1)
    ensures var o := Origin(nnonopts, nopts, q);
            now[start + q] == before[start + o] && cls[o] == i
  {
    hide WalkDone, Closed, Distinct;
    var j :| 0 <= j < |walk| - 1 && walk[j] == q;
    var k := if j == 0 then |walk| - 1 else j;
    assert walk[k] == q;
    assert Follows(walk, nnonopts + nopts, nopts, k);
    OriginOfNext(nnonopts, nopts, walk[k - 1]);
    WholeWalk(before, now, Shifted(walk, start), k);
  }

  lemma ShiftedCycle(walk: seq<nat>, size: nat, step: nat, start: nat, bound: nat)
    requires Cycle(walk, size, step) && start + size <= bound
    ensures Closed(Shifted(walk, start), bound)
  {
  }

  lemma OutsideKept<T>(before: seq<T>, now: seq<T>, start: nat, end: nat, walk: seq<nat>)
    requires start <= end <= |before| == |now|
    requires Closed(Shifted(walk, start), |now|) && forall j :: 0 <= j < |walk| ==> walk[j] < end - start
    requires WalkDone(before, now, Shifted(walk, start), |walk| - 1)
    ensures now[..start] == before[..start] && now[end..] == before[end..]
  {
  }

  /** The state after `i` cycles of the exchange. */
  ghost predicate Progress<T>(was: seq<T>, now: seq<T>, start: nat, mid: nat, end: nat, cls: seq<nat>, i: nat) {
    && start < mid < end <= |was| == |now| && |cls| == end - start
    && now[..start] == was[..start] && now[end..] == was[end..]
    && ClassesDone(was, now, start, mid - start, end - mid, cls, i)
  }

  lemma ProgressBegins<T>(was: seq<T>, start: nat, mid: nat, end: nat, cls: seq<nat>)
    requires start < mid < end <= |was| && |cls| == end - start
    ensures Progress(was, was, start, mid, end, cls, 0)
  {
  }

  lemma RoundDone<T>(was: seq<T>, before: seq<T>, now: seq<T>, start: nat, mid: nat, end: nat,
                     cls: seq<nat>, walk: seq<nat>, i: nat)
    requires start < mid < end <= |was| == |before| == |now|
    requires Progress(was, before, start, mid, end, cls, i)
    requires IsWalkOf(mid - start, end - mid, cls, walk, i) && Closed(Shifted(walk, start), |now|)
    requires WalkDone(before, now, Shifted(walk, start), |walk| - 1)
    ensures Progress(was, now, start, mid, end, cls, i + 1)
  {
    hide ClassesDone, WalkDone, Closed;
    CycleDone(was, before, now, start, mid - start, end - mid, cls, walk, i);
    OutsideKept(before, now, start, end, walk);
  }

  lemma StartOfClass(size: nat, nnonopts: nat, i: nat, g: nat)
    requires i < g && nnonopts % g == 0 && nnonopts + i < size
    ensures (nnonopts + i) % g == i
  {
    ModUnique(nnonopts + i, nnonopts / g, i, g);
  }

  lemma AllClassesDone<T>(was: seq<T>, now: seq<T>, start: nat, mid: nat, end: nat, cls: seq<nat>, g: nat)
    requires start < mid < end <= |was| && forall q :: 0 <= q < |cls| ==> cls[q] < g
    requires Progress(was, now, start, mid, end, cls, g)
    ensures now == Exchanged(was, start, mid, end)
  {
    var r := Exchanged(was, start, mid, end);
    forall k | 0 <= k < |now|
      ensures now[k] == r[k]
    {
      if k < start {
        assert now[k] == now[..start][k];
      } else if k >= end {
        assert now[k] == now[end..][k - end];
      } else {
        var q: nat := k - start;
        assert now[start + q] == was[start + Origin(mid - start, end - mid, q)];
      }
    }
  }

  lemma GcdAtMost(g: nat, x: nat, y: nat)
    requires 0 < y && IsGcd(g, x, y)
    ensures g <= y
  {
    var q :| Multiple(q, g) == y;
    MulBounds(q, g);
  }

  /** The cycles that the exchange follows: cycle `i` starts at the i-th position of the second block and
      covers residue class `i`. */
  lemma ExchangeCycles(nnonopts: nat, nopts: nat, g: nat) returns (cls: seq<nat>, walks: seq<seq<nat>>)
    requires 0 < nnonopts && 0 < nopts && IsGcd(g, nnonopts, nopts)
    ensures g <= nopts
    ensures |cls| == nnonopts + nopts && |walks| == g
    ensures forall q :: 0 <= q < |cls| ==> cls[q] < g
    ensures forall i :: 0 <= i < g ==>
              IsWalkOf(nnonopts, nopts, cls, walks[i], i) && |walks[i]| == Quotient(nnonopts + nopts, g) + 1
  {
    GcdAtMost(g, nnonopts, nopts);
    var length, turns, u, v := BlockCircle(nnonopts, nopts, g);
    cls := Classes(nnonopts + nopts, g);
    walks := [];
    while |walks| < g
      invariant |walks| <= g
      invariant forall i :: 0 <= i < |walks| ==> IsWalkOf(nnonopts, nopts, cls, walks[i], i) && |walks[i]| == length + 1
    {
      StartOfClass(nnonopts + nopts, nnonopts, |walks|, g);
      var walk := ClassIsCycle(nnonopts + nopts, nopts, g, length, turns, u, v, nnonopts + |walks|);
      walks := walks + [walk];
    }
  }

  ghost predicate IsWalkOf(nnonopts: nat, nopts: nat, cls: seq<nat>, walk: seq<nat>, i: nat) {
    && |cls| == nnonopts + nopts
    && Cycle(walk, nnonopts + nopts, nopts)
    && walk[0] == nnonopts + i
    && (forall q :: 0 <= q < |cls| && cls[q] == i ==> q in walk[..|walk| - 1])
    && (forall j :: 0 <= j < |walk| ==> cls[walk[j]] == i)
  }

  lemma WalkOnArray(cls: seq<nat>, walk: seq<nat>, nnonopts: nat, nopts: nat, start: nat, i: nat, bound: nat)
    requires IsWalkOf(nnonopts, nopts, cls, walk, i) && start + nnonopts + nopts <= bound
    ensures Closed(Shifted(walk, start), bound) && Shifted(walk, start)[0] == start + nnonopts + i
    ensures forall j :: 0 <= j < |walk| ==> Shifted(walk, start)[j] < start + nnonopts + nopts
  {
    ShiftedCycle(walk, nnonopts + nopts, nopts, start, bound);
  }

  lemma NextOnPath(start: nat, nnonopts: nat, nopts: nat, cls: seq<nat>, walk: seq<nat>, i: nat, j: nat)
    requires IsWalkOf(nnonopts, nopts, cls, walk, i) && 0 < nnonopts && j + 1 < |walk|
    ensures var path := Shifted(walk, start);
            && start <= path[j] < start + nnonopts + nopts
            && path[j + 1] == if path[j] >= start + nnonopts then path[j] - nnonopts else path[j] + nopts
  {
    assert Follows(walk, nnonopts + nopts, nopts, j + 1);
  }

  /** One round of the outer loop: follow the cycle that starts at `mid + i`. */
  method FollowCycle<T>(a: array<T>, start: nat, mid: nat, end: nat, i: nat, cyclelen: nat,
                        ghost cls: seq<nat>, ghost walk: seq<nat>)
    requires start < mid < end <= a.Length && mid + i < end
    requires IsWalkOf(mid - start, end - mid, cls, walk, i) && |walk| == cyclelen + 1
    modifies a
    ensures Closed(Shifted(walk, start), a.Length)
    ensures WalkDone(old(a[..]), a[..], Shifted(walk, start), cyclelen)
  {
    hide WalkDone, Closed, IsWalkOf, Shifted;
    WalkOnArray(cls, walk, mid - start, end - mid, start, i, a.Length);
    var nnonopts, nopts := mid - start, end - mid;
    var cstart := mid + i;
    var pos := cstart;
    ghost var before, now, path := a[..], a[..], Shifted(walk, start);
    WalkBegins(before, path);
    for j := 0 to cyclelen
      invariant a[..] == now && |now| == |before|
      invariant pos == path[j]
      invariant WalkDone(before, now, path, j)
    {
      WalkStep(before, now, path, j);
      if pos >= mid {
        pos := pos - nnonopts;
      } else {
        pos := pos + nopts;
      }
      NextOnPath(start, nnonopts, nopts, cls, walk, i, j);
      var swap := a[pos];
      a[pos] := a[cstart];
      a[cstart] := swap;
      now := Swapped(now, pos, cstart);
    }
  }

  method PermuteArgs<T>(a: array<T>, start: nat, mid: nat, end: nat)
    requires start < mid < end <= a.Length
    modifies a
    ensures a[..] == Exchanged(old(a[..]), start, mid, end)
  {
    hide Quotient, WalkDone, Closed, IsWalkOf, IsGcd, Progress, Exchanged;
    var nnonopts := mid - start;
    var nopts := end - mid;
    var ncycle := Gcd(nnonopts, nopts);
    var cyclelen := Quotient(end - start, ncycle);
    ghost var was, now := a[..], a[..];
    ghost var cls, walks := ExchangeCycles(nnonopts, nopts, ncycle);
    ProgressBegins(was, start, mid, end, cls);
    for i := 0 to ncycle
      invariant a[..] == now && |now| == |was|
      invariant Progress(was, now, start, mid, end, cls, i)
    {
      FollowCycle(a, start, mid, end, i, cyclelen, cls, walks[i]);
      RoundDone(was, now, a[..], start, mid, end, cls, walks[i], i);
      now := a[..];
    }
    AllClassesDone(was, now, start, mid, end, cls, ncycle);
  }
}
