/** One line of four cells and the merge algorithm applied to it by every move:
    drop the empty cells, combine adjacent equal tiles once from the front, pad
    with empty cells back to four. An empty cell is 0. */
module Line {

  /** Length of a line: one row or one column of the board. */
  const Width := 4

  /** Total face value of a line (or of a whole board). */
  function Sum(s: seq<int>): int
  {
    if |s| == 0 then 0 else s[0] + Sum(s[1..])
  }

  lemma {:induction false} SumConcat(a: seq<int>, b: seq<int>)
    ensures Sum(a + b) == Sum(a) + Sum(b)
    decreases |a|
  {
    if |a| == 0 {
      assert a + b == b;
    } else {
      assert (a + b)[1..] == a[1..] + b;
      SumConcat(a[1..], b);
    }
  }

  lemma Sum4(s: seq<int>)
    requires |s| == 4
    ensures Sum(s) == s[0] + s[1] + s[2] + s[3]
  {
    assert s == [s[0]] + [s[1]] + [s[2]] + [s[3]];
    SumConcat([s[0]] + [s[1]] + [s[2]], [s[3]]);
    SumConcat([s[0]] + [s[1]], [s[2]]);
    SumConcat([s[0]], [s[1]]);
  }

  /** A tile value: empty (0) or a power of two. */
  predicate PowerOfTwo(v: int)
    decreases if v < 0 then 0 else v
  {
    v == 1 || (v > 1 && v % 2 == 0 && PowerOfTwo(v / 2))
  }

  predicate IsTile(v: int)
  {
    v == 0 || PowerOfTwo(v)
  }

  predicate AllTiles(s: seq<int>)
  {
    forall i :: 0 <= i < |s| ==> IsTile(s[i])
  }

  predicate ZeroFree(s: seq<int>)
  {
    forall i :: 0 <= i < |s| ==> s[i] != 0
  }

  /** Every non-empty cell comes before every empty one. */
  predicate Packed(s: seq<int>)
  {
    forall i, j :: 0 <= i < j < |s| && s[i] == 0 ==> s[j] == 0
  }

  /** Some two neighbouring values are equal. */
  predicate HasAdjacentEqual(s: seq<int>)
  {
    exists i :: 0 <= i < |s| - 1 && s[i] == s[i + 1]
  }

  /** The non-empty cells of a line, in order (the `filter(val => val !== 0)` step). */
  function Compress(s: seq<int>): (c: seq<int>)
    ensures ZeroFree(c)
    ensures |c| <= |s|
    ensures Sum(c) == Sum(s)
    ensures ZeroFree(s) ==> c == s
    decreases |s|
  {
    if |s| == 0 then []
    else
      var rest := Compress(s[1..]);
      assert ([s[0]] + rest)[1..] == rest;
      if s[0] == 0 then rest
      else [s[0]] + rest
  }

  /** Compression keeps every non-empty tile, as often as it occurs, and drops
      exactly the empty cells. */
  lemma {:induction false} CompressMultiset(s: seq<int>)
    ensures |Compress(s)| == |s| - multiset(s)[0]
    ensures forall x :: x != 0 ==> multiset(Compress(s))[x] == multiset(s)[x]
    decreases |s|
  {
    if |s| > 0 {
      assert s == [s[0]] + s[1..];
      CompressMultiset(s[1..]);
    }
  }

  lemma CompressCons(x: int, s: seq<int>)
    ensures Compress([x] + s) == (if x == 0 then [] else [x]) + Compress(s)
  {
    assert ([x] + s)[1..] == s;
  }

  lemma CompressKeepsTiles(s: seq<int>)
    requires AllTiles(s)
    ensures AllTiles(Compress(s))
  {
    var c := Compress(s);
    CompressMultiset(s);
    forall i | 0 <= i < |c|
      ensures IsTile(c[i])
    {
      assert c[i] in multiset(c);
      assert c[i] in multiset(s);
      var k :| 0 <= k < |s| && s[k] == c[i];
    }
  }

  function Zeros(n: nat): (z: seq<int>)
    ensures |z| == n && forall i :: 0 <= i < n ==> z[i] == 0
  {
    seq(n, _ => 0)
  }

  /** Appends empty cells until the line has at least `n` cells. */
  function Pad(s: seq<int>, n: nat): (p: seq<int>)
    ensures |p| == if |s| >= n then |s| else n
    ensures p[..|s|] == s
    ensures forall i :: |s| <= i < |p| ==> p[i] == 0
  {
    if |s| >= n then s else s + Zeros(n - |s|)
  }

  lemma PadFacts(s: seq<int>, n: nat)
    requires ZeroFree(s)
    ensures Packed(Pad(s, n))
    ensures Compress(Pad(s, n)) == s
    ensures Sum(Pad(s, n)) == Sum(s)
  {
    var p := Pad(s, n);
    assert p == s + p[|s|..];
    SumConcat(s, p[|s|..]);
    ZerosFacts(p[|s|..]);
    CompressConcat(s, p[|s|..]);
  }

  lemma {:induction false} ZerosFacts(z: seq<int>)
    requires forall i :: 0 <= i < |z| ==> z[i] == 0
    ensures Sum(z) == 0 && Compress(z) == []
    decreases |z|
  {
    if |z| > 0 {
      ZerosFacts(z[1..]);
    }
  }

  lemma {:induction false} CompressConcat(a: seq<int>, b: seq<int>)
    ensures Compress(a + b) == Compress(a) + Compress(b)
    decreases |a|
  {
    if |a| == 0 {
      assert a + b == b;
    } else {
      assert (a + b)[1..] == a[1..] + b;
      CompressConcat(a[1..], b);
    }
  }

  /** How a tile of the merged line was formed: one source tile kept as is, or
      two equal neighbouring source tiles combined into one of twice the value. */
  datatype Group = Single(v: int) | Pair(v: int)

  function Value(g: Group): int
  {
    match g
    case Single(v) => v
    case Pair(v) => 2 * v
  }

  function Sources(g: Group): seq<int>
  {
    match g
    case Single(v) => [v]
    case Pair(v) => [v, v]
  }

  /** The source tiles of a grouping, in order. */
  function Flatten(gs: seq<Group>): seq<int>
  {
    if |gs| == 0 then [] else Sources(gs[0]) + Flatten(gs[1..])
  }

  /** The tiles a grouping produces. */
  function Values(gs: seq<Group>): (vs: seq<int>)
    ensures |vs| == |gs|
    ensures forall k :: 0 <= k < |gs| ==> vs[k] == Value(gs[k])
  {
    seq(|gs|, k requires 0 <= k < |gs| => Value(gs[k]))
  }

  /** Points scored by a grouping: the value of every combined tile. */
  function Gain(gs: seq<Group>): int
  {
    if |gs| == 0 then 0
    else (if gs[0].Pair? then Value(gs[0]) else 0) + Gain(gs[1..])
  }

  /** A tile left on its own is never equal to the tile after it: pairing is
      taken whenever it is possible, scanning from the front. */
  predicate Greedy(gs: seq<Group>)
  {
    forall k :: 0 <= k < |gs| - 1 ==> gs[k].Single? ==> gs[k].v != gs[k + 1].v
  }

  lemma FlattenHead(gs: seq<Group>)
    requires |gs| > 0
    ensures |Flatten(gs)| > 0 && Flatten(gs)[0] == gs[0].v
  {
  }

  lemma {:induction false} FlattenConcat(a: seq<Group>, b: seq<Group>)
    ensures Flatten(a + b) == Flatten(a) + Flatten(b)
    decreases |a|
  {
    if |a| == 0 {
      assert a + b == b;
    } else {
      assert (a + b)[1..] == a[1..] + b;
      FlattenConcat(a[1..], b);
    }
  }

  lemma {:induction false} GainConcat(a: seq<Group>, b: seq<Group>)
    ensures Gain(a + b) == Gain(a) + Gain(b)
    decreases |a|
  {
    if |a| == 0 {
      assert a + b == b;
    } else {
      assert (a + b)[1..] == a[1..] + b;
      GainConcat(a[1..], b);
    }
  }

  /** The grouping the merge loop performs on a line of non-empty tiles. */
  function Pairing(c: seq<int>): (gs: seq<Group>)
    ensures Flatten(gs) == c
    ensures Greedy(gs)
    decreases |c|
  {
    if |c| == 0 then []
    else if |c| >= 2 && c[0] == c[1] then
      var rest := Pairing(c[2..]);
      assert ([Pair(c[0])] + rest)[1..] == rest;
      assert c == [c[0], c[0]] + c[2..];
      [Pair(c[0])] + rest
    else
      var rest := Pairing(c[1..]);
      assert ([Single(c[0])] + rest)[1..] == rest;
      assert c == [c[0]] + c[1..];
      if |rest| > 0 then FlattenHead(rest); [Single(c[0])] + rest
      else [Single(c[0])] + rest
  }

  /** The greedy grouping is the only one that covers the line and is greedy:
      so the merge is fully described by "each source tile is used exactly once,
      and a lone tile never equals its successor". */
  lemma {:induction false} PairingUnique(c: seq<int>, gs: seq<Group>)
    requires Flatten(gs) == c
    requires Greedy(gs)
    ensures gs == Pairing(c)
    decreases |gs|
  {
    if |gs| == 0 {
    } else {
      var rest := gs[1..];
      assert Greedy(rest) by {
        forall k | 0 <= k < |rest| - 1
          ensures rest[k].Single? ==> rest[k].v != rest[k + 1].v
        {
          assert rest[k] == gs[k + 1] && rest[k + 1] == gs[k + 2];
        }
      }
      match gs[0]
      case Pair(v) =>
        assert c == [v, v] + Flatten(rest);
        assert c[2..] == Flatten(rest);
        PairingUnique(c[2..], rest);
      case Single(v) =>
        assert c == [v] + Flatten(rest);
        assert c[1..] == Flatten(rest);
        if |rest| > 0 {
          FlattenHead(rest);
          assert gs[1] == rest[0];
          assert c[1] == rest[0].v;
        }
        PairingUnique(c[1..], rest);
    }
  }

  lemma {:induction false} PairingLength(c: seq<int>)
    ensures |Pairing(c)| <= |c|
    ensures HasAdjacentEqual(c) ==> |Pairing(c)| < |c|
    decreases |c|
  {
    if |c| == 0 {
    } else if |c| >= 2 && c[0] == c[1] {
      PairingLength(c[2..]);
      assert 0 <= 0 < |c| - 1 && c[0] == c[0 + 1];
    } else {
      PairingLength(c[1..]);
      if HasAdjacentEqual(c) {
        var i :| 0 <= i < |c| - 1 && c[i] == c[i + 1];
        assert i != 0;
        assert c[1..][i - 1] == c[1..][i];
      }
    }
  }

  lemma {:induction false} PairingWithoutPairs(c: seq<int>)
    requires !HasAdjacentEqual(c)
    ensures Values(Pairing(c)) == c
    ensures Gain(Pairing(c)) == 0
    decreases |c|
  {
    if |c| > 0 {
      if |c| >= 2 {
        assert c[0] != c[1] by { assert 0 <= 0 < |c| - 1; }
      }
      forall i | 0 <= i < |c[1..]| - 1
        ensures c[1..][i] != c[1..][i + 1]
      {
        assert c[1..][i] == c[i + 1] && c[1..][i + 1] == c[i + 2];
        assert 0 <= i + 1 < |c| - 1;
      }
      PairingWithoutPairs(c[1..]);
    }
  }

  lemma {:induction false} PairingFacts(c: seq<int>)
    requires ZeroFree(c)
    ensures ZeroFree(Values(Pairing(c)))
    ensures Sum(Values(Pairing(c))) == Sum(c)
    decreases |c|
  {
    var gs := Pairing(c);
    if |c| == 0 {
    } else if |c| >= 2 && c[0] == c[1] {
      PairingFacts(c[2..]);
      assert Values(gs) == [2 * c[0]] + Values(Pairing(c[2..]));
      SumConcat([2 * c[0]], Values(Pairing(c[2..])));
    } else {
      PairingFacts(c[1..]);
      assert Values(gs) == [c[0]] + Values(Pairing(c[1..]));
      SumConcat([c[0]], Values(Pairing(c[1..])));
    }
  }

  lemma {:induction false} PairingKeepsTiles(c: seq<int>)
    requires AllTiles(c)
    ensures AllTiles(Values(Pairing(c)))
    decreases |c|
  {
    var gs := Pairing(c);
    if |c| == 0 {
    } else if |c| >= 2 && c[0] == c[1] {
      PairingKeepsTiles(c[2..]);
      assert Values(gs) == [2 * c[0]] + Values(Pairing(c[2..]));
      DoubleTile(c[0]);
      TilesCons(2 * c[0], Values(Pairing(c[2..])));
    } else {
      PairingKeepsTiles(c[1..]);
      assert Values(gs) == [c[0]] + Values(Pairing(c[1..]));
      TilesCons(c[0], Values(Pairing(c[1..])));
    }
  }

  /** Combining two equal tiles makes a tile. */
  lemma DoubleTile(v: int)
    requires IsTile(v)
    ensures IsTile(2 * v)
  {
    if v != 0 {
      assert (2 * v) / 2 == v;
    }
  }

  lemma TilesCons(x: int, s: seq<int>)
    requires IsTile(x) && AllTiles(s)
    ensures AllTiles([x] + s)
  {
    forall i | 0 <= i < |[x] + s|
      ensures IsTile(([x] + s)[i])
    {
      if i > 0 {
        assert ([x] + s)[i] == s[i - 1];
      }
    }
  }

  predicate Positive(s: seq<int>)
  {
    forall i :: 0 <= i < |s| ==> s[i] > 0
  }

  lemma {:induction false} PairingGain(c: seq<int>)
    requires Positive(c)
    ensures Gain(Pairing(c)) >= 0
    ensures Gain(Pairing(c)) > 0 <==> HasAdjacentEqual(c)
    decreases |c|
  {
    var gs := Pairing(c);
    if !HasAdjacentEqual(c) {
      PairingWithoutPairs(c);
    }
    if |c| == 0 {
    } else if |c| >= 2 && c[0] == c[1] {
      PairingGain(c[2..]);
      assert gs[1..] == Pairing(c[2..]);
    } else {
      PairingGain(c[1..]);
      assert gs[1..] == Pairing(c[1..]);
      if HasAdjacentEqual(c) {
        var i :| 0 <= i < |c| - 1 && c[i] == c[i + 1];
        assert c[1..][i - 1] == c[1..][i];
      }
    }
  }

  /** Result of merging one line: the new cells and the points scored. */
  datatype MergeResult = MergeResult(line: seq<int>, gain: int)

  /** `merge(line)`: compress, combine equal neighbours once from the front,
      pad back to four cells. */
  function Merge(line: seq<int>): (r: MergeResult)
    ensures |line| <= Width ==> |r.line| == Width
  {
    var c := Compress(line);
    var gs := Pairing(c);
    PairingLength(c);
    MergeResult(Pad(Values(gs), Width), Gain(gs))
  }

  /** The merged line is packed toward index 0, keeps the line's total, and holds
      no more tiles than the line did. */
  lemma MergeConserves(line: seq<int>)
    ensures Packed(Merge(line).line)
    ensures Sum(Merge(line).line) == Sum(line)
    ensures |Compress(Merge(line).line)| <= |Compress(line)|
  {
    var c := Compress(line);
    PairingFacts(c);
    PairingLength(c);
    PadFacts(Values(Pairing(c)), Width);
  }

  /** The merged line is determined by any grouping that uses every non-empty
      source tile exactly once and pairs greedily: the line holds the grouping's
      tiles in order followed by empty cells, and the points scored are exactly
      the values of the combined tiles. Since a group holds at most two source
      tiles, no tile formed by a combination is combined again in the same pass. */
  lemma MergeCharacterised(line: seq<int>, gs: seq<Group>)
    requires Flatten(gs) == Compress(line)
    requires Greedy(gs)
    ensures Merge(line).line == Pad(Values(gs), Width)
    ensures Merge(line).gain == Gain(gs)
  {
    PairingUnique(Compress(line), gs);
  }

  /** A line whose non-empty tiles have no equal neighbours comes back compressed
      and padded, and scores nothing; otherwise the line loses at least one tile.
      With non-negative cells, the merge scores iff some pair is combined. */
  lemma MergeStable(line: seq<int>)
    ensures !HasAdjacentEqual(Compress(line)) <==> Merge(line).line == Pad(Compress(line), Width)
    ensures !HasAdjacentEqual(Compress(line)) ==> Merge(line).gain == 0
    ensures HasAdjacentEqual(Compress(line)) ==> |Compress(Merge(line).line)| < |Compress(line)|
    ensures (forall i :: 0 <= i < |line| ==> line[i] >= 0) ==>
              (Merge(line).gain == 0 <==> !HasAdjacentEqual(Compress(line)))
  {
    var c := Compress(line);
    var gs := Pairing(c);
    PairingFacts(c);
    PadFacts(Values(gs), Width);
    if !HasAdjacentEqual(c) {
      PairingWithoutPairs(c);
    } else {
      PairingLength(c);
      var n := |Values(gs)|;
      var a := Pad(Values(gs), Width);
      var b := Pad(c, Width);
      if n >= Width {
        assert |a| == n && |b| == |c|;
      } else {
        assert a[n] == 0;
        assert b[..|c|] == c;
        assert b[n] == c[n] != 0;
      }
      assert a != b;
    }
    if forall i :: 0 <= i < |line| ==> line[i] >= 0 {
      CompressMultiset(line);
      forall i | 0 <= i < |c|
        ensures c[i] > 0
      {
        assert c[i] in multiset(c);
        assert c[i] in multiset(line);
      }
      PairingGain(c);
    }
  }

  /** Merging keeps every cell a tile value (0 or a power of two). */
  lemma MergeKeepsTiles(line: seq<int>)
    requires AllTiles(line)
    ensures AllTiles(Merge(line).line)
    ensures Merge(line).gain >= 0
  {
    var c := Compress(line);
    CompressKeepsTiles(line);
    PairingFacts(c);
    PairingKeepsTiles(c);
    forall i | 0 <= i < |c|
      ensures c[i] > 0
    {
      assert IsTile(c[i]);
    }
    PairingGain(c);
    var p := Pad(Values(Pairing(c)), Width);
    forall i | 0 <= i < |p|
      ensures IsTile(p[i])
    {
      if i < |Values(Pairing(c))| {
        assert p[i] == Values(Pairing(c))[i];
      }
    }
  }

  /** A line of tiles padded with empty cells compresses back to the tiles. */
  lemma PaddedExample(s: seq<int>)
    requires |s| <= Width && ZeroFree(s)
    ensures Compress(Pad(s, Width)) == s
  {
    PadFacts(s, Width);
  }

  lemma GappedExample()
    ensures Compress([0, 2, 0, 2]) == [2, 2]
  {
    CompressCons(0, [2]);
    assert ZeroFree([2]);
    assert [0, 2] + [0, 2] == [0, 2, 0, 2];
    CompressConcat([0, 2], [0, 2]);
  }

  lemma FullExample()
    ensures Compress([2, 2, 2, 2]) == [2, 2, 2, 2]
  {
    assert ZeroFree([2, 2, 2, 2]);
  }

  /** Four equal tiles make two tiles (not one), scoring 8. */
  lemma MergeFourEqual()
    ensures Merge([2, 2, 2, 2]) == MergeResult([4, 4, 0, 0], 8)
  {
    FullExample();
    FourEqualGroups();
    MergeCharacterised([2, 2, 2, 2], [Pair(2), Pair(2)]);
    assert Pad([4, 4], Width) == [4, 4, 0, 0];
  }

  lemma FourEqualGroups()
    ensures Flatten([Pair(2), Pair(2)]) == [2, 2, 2, 2] && Greedy([Pair(2), Pair(2)])
    ensures Values([Pair(2), Pair(2)]) == [4, 4] && Gain([Pair(2), Pair(2)]) == 8
  {
    var gs := [Pair(2), Pair(2)];
    FlattenHead(gs);
    FlattenHead(gs[1..]);
  }

  /** Empty cells between two equal tiles do not prevent their merge. */
  lemma MergeAcrossGaps()
    ensures Merge([0, 2, 0, 2]) == MergeResult([4, 0, 0, 0], 4)
  {
    GappedExample();
    GapGroups();
    MergeCharacterised([0, 2, 0, 2], [Pair(2)]);
    assert Pad([4], Width) == [4, 0, 0, 0];
  }

  lemma GapGroups()
    ensures Flatten([Pair(2)]) == [2, 2] && Greedy([Pair(2)])
    ensures Values([Pair(2)]) == [4] && Gain([Pair(2)]) == 4
  {
    var gs := [Pair(2)];
    FlattenHead(gs);
  }

  /** A line without equal neighbours is returned unchanged and scores nothing. */
  lemma MergeNoNeighbours()
    ensures Merge([2, 4, 2, 0]) == MergeResult([2, 4, 2, 0], 0)
  {
    PaddedExample([2, 4, 2]);
    assert Pad([2, 4, 2], Width) == [2, 4, 2, 0];
    NoNeighbourGroups();
    MergeCharacterised([2, 4, 2, 0], [Single(2), Single(4), Single(2)]);
  }

  lemma NoNeighbourGroups()
    ensures Flatten([Single(2), Single(4), Single(2)]) == [2, 4, 2] && Greedy([Single(2), Single(4), Single(2)])
    ensures Values([Single(2), Single(4), Single(2)]) == [2, 4, 2] && Gain([Single(2), Single(4), Single(2)]) == 0
  {
    var gs := [Single(2), Single(4), Single(2)];
    FlattenHead(gs);
    FlattenHead(gs[1..]);
    FlattenHead(gs[2..]);
  }

  /** A freshly combined 8 is not combined again with the 8 next to it. */
  lemma MergeNoChain()
    ensures Merge([4, 4, 8, 0]) == MergeResult([8, 8, 0, 0], 8)
  {
    PaddedExample([4, 4, 8]);
    assert Pad([4, 4, 8], Width) == [4, 4, 8, 0];
    NoChainGroups();
    MergeCharacterised([4, 4, 8, 0], [Pair(4), Single(8)]);
    assert Pad([8, 8], Width) == [8, 8, 0, 0];
  }

  lemma NoChainGroups()
    ensures Flatten([Pair(4), Single(8)]) == [4, 4, 8] && Greedy([Pair(4), Single(8)])
    ensures Values([Pair(4), Single(8)]) == [8, 8] && Gain([Pair(4), Single(8)]) == 8
  {
    var gs := [Pair(4), Single(8)];
    FlattenHead(gs);
    FlattenHead(gs[1..]);
  }

  /** One step of the scan: the grouping of a suffix starts with the group the
      loop forms at that position. */
  lemma PairingStep(c: seq<int>, i: int)
    requires 0 <= i < |c|
    ensures i + 1 < |c| && c[i] == c[i + 1] ==> Pairing(c[i..]) == [Pair(c[i])] + Pairing(c[i + 2..])
    ensures !(i + 1 < |c| && c[i] == c[i + 1]) ==> Pairing(c[i..]) == [Single(c[i])] + Pairing(c[i + 1..])
  {
    var rest := c[i..];
    assert rest[0] == c[i];
    if i + 1 < |c| {
      assert rest[1] == c[i + 1];
      assert rest[2..] == c[i + 2..];
    }
    assert rest[1..] == c[i + 1..];
  }

  lemma AppendGroup(done: seq<Group>, g: Group, rest: seq<Group>)
    ensures done + ([g] + rest) == (done + [g]) + rest
    ensures Values(done + [g]) == Values(done) + [Value(g)]
    ensures Gain(done + [g]) == Gain(done) + (if g.Pair? then Value(g) else 0)
  {
    GainConcat(done, [g]);
    assert Gain([g]) == (if g.Pair? then Value(g) else 0) + Gain([]);
  }

  /** The scanning loop of `merge` over the compressed line: the index steps by
      two after a combination and by one otherwise. */
  method Scan(merged: seq<int>) returns (result: seq<int>, gain: int)
    ensures result == Values(Pairing(merged))
    ensures gain == Gain(Pairing(merged))
  {
    result := [];
    gain := 0;
    ghost var done: seq<Group> := [];
    assert Values(done) == [];
    var i := 0;
    while i < |merged|
      invariant 0 <= i <= |merged|
      invariant Pairing(merged) == done + Pairing(merged[i..])
      invariant result == Values(done)
      invariant gain == Gain(done)
    {
      PairingStep(merged, i);
      if i + 1 < |merged| && merged[i] == merged[i + 1] {
        ghost var g := Pair(merged[i]);
        AppendGroup(done, g, Pairing(merged[i + 2..]));
        assert Value(g) == merged[i] * 2;
        result := result + [merged[i] * 2];
        gain := gain + merged[i] * 2;
        done := done + [g];
        i := i + 2;
      } else {
        ghost var g := Single(merged[i]);
        AppendGroup(done, g, Pairing(merged[i + 1..]));
        result := result + [merged[i]];
        done := done + [g];
        i := i + 1;
      }
    }
    assert merged[i..] == [];
    assert done + Pairing(merged[i..]) == done;
  }

  /** `merge` in js/game.js, loop for loop: drop the empty cells, scan, then push
      empty cells until the line is four long again. */
  method MergeLoop(line: seq<int>) returns (result: seq<int>, gain: int)
    ensures result == Merge(line).line
    ensures gain == Merge(line).gain
  {
    var merged := Compress(line);
    result, gain := Scan(merged);
    while |result| < Width
      invariant Pad(result, Width) == Pad(Values(Pairing(merged)), Width)
      decreases Width - |result|
    {
      assert Pad(result + [0], Width) == Pad(result, Width);
      result := result + [0];
    }
  }
}
