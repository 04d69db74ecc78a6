/** Round-robin dealing: what each of n seats receives when a sequence of
    cards is handed out one at a time, card k to seat k % n. */
module Dealing {
  import opened Cards

  /** The cards of `s` at indices j, j + n, j + 2n, ... in that order: what
      seat j receives in a round-robin deal of `s` over n seats. */
  function Stride(s: seq<Card>, n: nat, j: nat): (share: seq<Card>)
    requires n > 0
    decreases |s| - j
  {
    if j >= |s| then [] else [s[j]] + Stride(s, n, j + n)
  }

  /** Index i is one of j, j + n, j + 2n, ... */
  predicate OnStride(i: nat, n: nat, j: nat)
    requires n > 0
    decreases i - j
  {
    j <= i && (i == j || OnStride(i, n, j + n))
  }

  lemma {:induction false} MulAtLeast(a: int, n: int)
    requires a >= 1 && n > 0
    ensures a * n >= n
  {
    if a > 1 {
      MulAtLeast(a - 1, n);
      assert a * n == (a - 1) * n + n;
    }
  }

  lemma MulSucc(q: int, n: int)
    ensures (q + 1) * n == q * n + n
  {
  }

  /** Euclidean remainder is determined by any quotient/remainder split. */
  lemma ModUnique(x: int, n: int, q: int, r: int)
    requires n > 0 && 0 <= r < n && x == q * n + r
    ensures x % n == r
  {
    var q', r' := x / n, x % n;
    assert x == q' * n + r';
    assert (q - q') * n == r' - r;
    if q - q' >= 1 {
      MulAtLeast(q - q', n);
    } else if q' - q >= 1 {
      MulAtLeast(q' - q, n);
    }
  }

  /** Advancing the index by one advances the seat by one, wrapping at n:
      the source's `playerIndex = (playerIndex + 1) % n` tracks `i % n`. */
  lemma ModNext(i: nat, n: nat)
    requires n > 0
    ensures (i + 1) % n == (i % n + 1) % n
  {
    var q, r := i / n, i % n;
    assert i == q * n + r;
    if r + 1 < n {
      ModUnique(i + 1, n, q, r + 1);
      ModUnique(r + 1, n, 0, r + 1);
    } else {
      MulSucc(q, n);
      ModUnique(i + 1, n, q + 1, 0);
      ModUnique(n, n, 1, 0);
    }
  }

  lemma {:induction false} OnStrideShift(a: nat, n: nat, b: nat)
    requires n > 0
    ensures OnStride(a + n, n, b + n) == OnStride(a, n, b)
    decreases a - b
  {
    if b < a {
      OnStrideShift(a, n, b + n);
    }
  }

  /** Index i lies on seat j's stride exactly when i % n == j. */
  lemma {:induction false} OnStrideMod(i: nat, n: nat, j: nat)
    requires j < n
    ensures OnStride(i, n, j) <==> i % n == j
    decreases i
  {
    if i < n {
      ModUnique(i, n, 0, i);
      if j < i {
        assert !OnStride(i, n, j + n);
      }
    } else {
      OnStrideMod(i - n, n, j);
      OnStrideShift(i - n, n, j);
      ModUnique(i, n, (i - n) / n + 1, (i - n) % n);
    }
  }

  /** One more card at the end of the deal goes to seat |t| % n and to no
      other seat. */
  lemma {:induction false} StrideSnoc(t: seq<Card>, x: Card, n: nat, j: nat)
    requires j < n
    ensures Stride(t + [x], n, j) == Stride(t, n, j) + (if |t| % n == j then [x] else [])
  {
    OnStrideMod(|t|, n, j);
    StrideSnocAt(t, x, n, j);
  }

  lemma {:induction false} StrideSnocAt(t: seq<Card>, x: Card, n: nat, j: nat)
    requires n > 0
    ensures Stride(t + [x], n, j) == Stride(t, n, j) + (if OnStride(|t|, n, j) then [x] else [])
    decreases |t| - j
  {
    var u := t + [x];
    if j < |t| {
      StrideSnocAt(t, x, n, j + n);
      assert u[j] == t[j];
      assert Stride(u, n, j) == [t[j]] + Stride(u, n, j + n);
      assert OnStride(|t|, n, j) == OnStride(|t|, n, j + n);
    } else if j == |t| {
      assert Stride(u, n, j + n) == [];
    }
  }

  /** A seat's share of a prefix of the deal is no larger than its share of
      the whole deal. */
  lemma {:induction false} StridePrefix(s: seq<Card>, i: nat, n: nat, j: nat)
    requires i <= |s| && j < n
    ensures |Stride(s[..i], n, j)| <= |Stride(s, n, j)|
    decreases |s| - i
  {
    if i < |s| {
      StrideSnoc(s[..i], s[i], n, j);
      assert s[..i] + [s[i]] == s[..i + 1];
      StridePrefix(s, i + 1, n, j);
    } else {
      assert s[..i] == s;
    }
  }

  /** Dealing card i of `s` adds it to seat i % n and to no other seat. */
  lemma DealNext(s: seq<Card>, i: nat, n: nat)
    requires i < |s| && n > 0
    ensures forall j :: 0 <= j < n ==>
      Stride(s[..i + 1], n, j) == Stride(s[..i], n, j) + (if i % n == j then [s[i]] else [])
  {
    assert s[..i + 1] == s[..i] + [s[i]];
    forall j | 0 <= j < n
      ensures Stride(s[..i + 1], n, j) == Stride(s[..i], n, j) + (if i % n == j then [s[i]] else [])
    {
      StrideSnoc(s[..i], s[i], n, j);
    }
  }

  /** In a deal of four rounds, the seat about to receive card i holds fewer
      than four cards. */
  lemma HandBound(s: seq<Card>, i: nat, n: nat)
    requires |s| == HandLimit * n && i < |s|
    ensures |Stride(s[..i], n, i % n)| < HandLimit
  {
    DealNext(s, i, n);
    StridePrefix(s, i + 1, n, i % n);
    FourRounds(s, n, i % n);
  }

  /** The last card a seat receives closes its share of the deal. */
  lemma StrideLast(s: seq<Card>, n: nat, j: nat)
    requires n > 0 && j < |s| <= j + n
    ensures Stride(s, n, j) == [s[j]]
  {
    assert Stride(s, n, j + n) == [];
  }

  /** A seat that receives exactly two cards, from j and j + n. */
  lemma StrideTwo(s: seq<Card>, n: nat, j: nat)
    requires n > 0 && j + n < |s| <= j + 2 * n
    ensures Stride(s, n, j) == [s[j], s[j + n]]
  {
    StrideLast(s, n, j + n);
  }

  /** A seat that receives exactly three cards, from j, j + n and j + 2n. */
  lemma StrideThree(s: seq<Card>, n: nat, j: nat)
    requires n > 0 && j + 2 * n < |s| <= j + 3 * n
    ensures Stride(s, n, j) == [s[j], s[j + n], s[j + 2 * n]]
  {
    StrideTwo(s, n, j + n);
    assert j + n + n == j + 2 * n;
  }

  /** Dealing exactly four rounds gives every seat four cards, the ones at
      j, j + n, j + 2n and j + 3n. */
  lemma FourRounds(s: seq<Card>, n: nat, j: nat)
    requires |s| == HandLimit * n && j < n
    ensures Stride(s, n, j) == [s[j], s[j + n], s[j + 2 * n], s[j + 3 * n]]
  {
    StrideThree(s, n, j + n);
    assert j + n + n == j + 2 * n && j + n + 2 * n == j + 3 * n;
  }

  /** The hands of all n seats after a round-robin deal of `s`. */
  function Deal(s: seq<Card>, n: nat): (hs: seq<seq<Card>>)
    requires n > 0
    ensures |hs| == n
  {
    seq(n, j requires 0 <= j < n => Stride(s, n, j))
  }

  /** All cards held in a sequence of containers. */
  function Pool(hs: seq<seq<Card>>): (held: multiset<Card>)
  {
    if hs == [] then multiset{} else Pool(hs[..|hs| - 1]) + multiset(hs[|hs| - 1])
  }

  lemma {:induction false} PoolAdd(hs: seq<seq<Card>>, p: nat, x: Card)
    requires p < |hs|
    ensures Pool(hs[p := hs[p] + [x]]) == Pool(hs) + multiset{x}
  {
    var hs' := hs[p := hs[p] + [x]];
    var m := |hs| - 1;
    assert hs'[..m] == if p == m then hs[..m] else hs[..m][p := hs[p] + [x]];
    if p < m {
      PoolAdd(hs[..m], p, x);
    }
  }

  /** A round-robin deal neither loses nor duplicates a card. */
  lemma {:induction false} DealConserves(s: seq<Card>, n: nat)
    requires n > 0
    ensures Pool(Deal(s, n)) == multiset(s)
  {
    if s == [] {
      var hs := Deal(s, n);
      assert forall j :: 0 <= j < n ==> hs[j] == [];
      PoolEmpty(hs);
    } else {
      var t, x := s[..|s| - 1], s[|s| - 1];
      assert s == t + [x];
      DealConserves(t, n);
      var p := |t| % n;
      forall j | 0 <= j < n
        ensures Deal(s, n)[j] == Deal(t, n)[p := Deal(t, n)[p] + [x]][j]
      {
        StrideSnoc(t, x, n, j);
      }
      assert Deal(s, n) == Deal(t, n)[p := Deal(t, n)[p] + [x]];
      PoolAdd(Deal(t, n), p, x);
    }
  }

  lemma {:induction false} PoolEmpty(hs: seq<seq<Card>>)
    requires forall j :: 0 <= j < |hs| ==> hs[j] == []
    ensures Pool(hs) == multiset{}
  {
    if hs != [] {
      PoolEmpty(hs[..|hs| - 1]);
    }
  }

  /** `s` read from its last card to its first. */
  function Reversed(s: seq<Card>): (r: seq<Card>)
    ensures |r| == |s|
    ensures forall i :: 0 <= i < |s| ==> r[i] == s[|s| - 1 - i]
  {
    if s == [] then [] else [s[|s| - 1]] + Reversed(s[..|s| - 1])
  }

  lemma {:induction false} ReversedMultiset(s: seq<Card>)
    ensures multiset(Reversed(s)) == multiset(s)
  {
    if s != [] {
      ReversedMultiset(s[..|s| - 1]);
      assert s == s[..|s| - 1] + [s[|s| - 1]];
    }
  }

  /** Dealing a prefix of the pack round-robin and the rest round-robin from
      the back loses and duplicates no card. */
  lemma SetupConserves(pack: seq<Card>, k: nat, n: nat)
    requires k <= |pack| && n > 0
    ensures Pool(Deal(pack[..k], n)) + Pool(Deal(Reversed(pack[k..]), n)) == multiset(pack)
  {
    var front, back := pack[..k], pack[k..];
    var rev := Reversed(back);
    DealConserves(front, n);
    DealConserves(rev, n);
    ReversedMultiset(back);
    assert pack == front + back;
    calc {
      Pool(Deal(front, n)) + Pool(Deal(rev, n));
      multiset(front) + multiset(rev);
      multiset(front) + multiset(back);
      multiset(pack);
    }
  }

  /** Eight cards dealt to two seats: the even positions and the odd ones. */
  lemma TwoSeats(s: seq<Card>)
    requires |s| == 8
    ensures Stride(s, 2, 0) == [s[0], s[2], s[4], s[6]]
    ensures Stride(s, 2, 1) == [s[1], s[3], s[5], s[7]]
  {
    FourRounds(s, 2, 0);
    FourRounds(s, 2, 1);
  }

  /** A pack of the values 1..16 set up for two players: the hands are
      1, 3, 5, 7 and 2, 4, 6, 8; the decks, filled from the back of the
      pack, are 16, 14, 12, 10 and 15, 13, 11, 9. */
  lemma SixteenCardSetup(pack: seq<Card>)
    requires |pack| == 16 && forall i :: 0 <= i < 16 ==> pack[i].value == i + 1
    ensures Values(Stride(pack[..8], 2, 0)) == [1, 3, 5, 7]
    ensures Values(Stride(pack[..8], 2, 1)) == [2, 4, 6, 8]
    ensures Values(Stride(Reversed(pack[8..]), 2, 0)) == [16, 14, 12, 10]
    ensures Values(Stride(Reversed(pack[8..]), 2, 1)) == [15, 13, 11, 9]
  {
    var front, back := pack[..8], Reversed(pack[8..]);
    TwoSeats(front);
    TwoSeats(back);
    assert back[0].value == 16 && back[2].value == 14 && back[4].value == 12 && back[6].value == 10;
    assert back[1].value == 15 && back[3].value == 13 && back[5].value == 11 && back[7].value == 9;
  }

  /** With a pack of 8n cards every hand and every deck starts with four. */
  lemma FullPackSetup(pack: seq<Card>, n: nat, j: nat)
    requires |pack| == CardsPerPlayer * n && j < n
    ensures |Stride(pack[..HandLimit * n], n, j)| == HandLimit
    ensures |Stride(Reversed(pack[HandLimit * n..]), n, j)| == HandLimit
  {
    FourRounds(pack[..HandLimit * n], n, j);
    FourRounds(Reversed(pack[HandLimit * n..]), n, j);
  }
}
