/**
 * The 7-bag randomiser: whenever the bag runs empty, a fresh permutation of
 * all seven types is appended; `Next` pops from the end of the bag and `Peek`
 * looks at the end.
 */
module PieceGenerators {
  import opened PieceTypes
  import opened Blocks
  import opened Pieces

  /** The template list the bag is refilled from. */
  const AllPieces: seq<PieceType> := [OPiece, TPiece, IPiece, LPiece, JPiece, SPiece, ZPiece]

  /** A permutation of the seven piece types. */
  predicate IsFullBag(s: seq<PieceType>)
  {
    multiset(s) == multiset(AllPieces)
  }

  /** A full bag has seven entries and holds every piece type exactly once. */
  lemma FullBagHasEachTypeOnce(s: seq<PieceType>, t: PieceType)
    requires IsFullBag(s)
    ensures |s| == 7 && multiset(s)[t] == 1
  {
    assert |multiset(s)| == |s|;
    assert multiset(AllPieces) == multiset{OPiece, TPiece, IPiece, LPiece, JPiece, SPiece, ZPiece};
  }

  /** The order in which popping from the end hands out the elements of `s`. */
  function Reversed(s: seq<PieceType>): seq<PieceType>
  {
    if s == [] then [] else [s[|s| - 1]] + Reversed(s[..|s| - 1])
  }

  lemma {:induction false} ReversedIsPermutation(s: seq<PieceType>)
    ensures multiset(Reversed(s)) == multiset(s)
  {
    if s != [] {
      ReversedIsPermutation(s[..|s| - 1]);
      assert s == s[..|s| - 1] + [s[|s| - 1]];
    }
  }

  /** A non-empty sequence is its front followed by its last element. */
  lemma PopSplit(s: seq<PieceType>)
    requires s != []
    ensures s == s[..|s| - 1] + [s[|s| - 1]]
  {
  }

  /** The k-th aligned group of seven draws. */
  function GroupAt(s: seq<PieceType>, k: nat): seq<PieceType>
    requires 7 * k + 7 <= |s|
  {
    s[7 * k .. 7 * k + 7]
  }

  /** Every complete group of seven aligned to a multiple of seven is a full bag. */
  ghost predicate Fair(s: seq<PieceType>)
  {
    forall k: nat :: 7 * k + 7 <= |s| ==> IsFullBag(GroupAt(s, k))
  }

  /** Appending a full bag at a group boundary keeps a sequence fair. */
  lemma FairAppend(s: seq<PieceType>, p: seq<PieceType>, bags: nat)
    requires Fair(s) && |s| == 7 * bags && IsFullBag(p)
    ensures Fair(s + p)
  {
    assert |multiset(p)| == |p|;
    forall k: nat | 7 * k + 7 <= |s + p| ensures IsFullBag(GroupAt(s + p, k)) {
      if 7 * k + 7 <= |s| {
        assert GroupAt(s + p, k) == GroupAt(s, k);
      } else {
        assert 7 * k == |s|;
        assert GroupAt(s + p, k) == p;
      }
    }
  }

  /** Drawing a fresh full bag by popping continues a fair history fairly. */
  lemma FairAfterRefill(h: seq<PieceType>, p: seq<PieceType>, bags: nat)
    requires Fair(h) && |h| == 7 * bags && IsFullBag(p)
    ensures Fair(h + Reversed(p)) && |p| == 7
  {
    assert |multiset(p)| == |p|;
    ReversedIsPermutation(p);
    FairAppend(h, Reversed(p), bags);
  }

  /** Every prefix of a fair sequence is fair. */
  lemma FairPrefix(s: seq<PieceType>, n: nat)
    requires Fair(s) && n <= |s|
    ensures Fair(s[..n])
  {
    forall k: nat | 7 * k + 7 <= n ensures IsFullBag(GroupAt(s[..n], k)) {
      GroupOfPrefix(s, n, k);
    }
  }

  /** Cutting a sequence after a group leaves that group in place. */
  lemma GroupOfPrefix(s: seq<PieceType>, n: nat, k: nat)
    requires 7 * k + 7 <= n <= |s|
    ensures GroupAt(s[..n], k) == GroupAt(s, k)
  {
  }

  class PieceGenerator {
    var bag: seq<PieceType>
    /** The types handed out by Next so far, in order. */
    ghost var history: seq<PieceType>
    /** How many full bags have been shuffled in so far. */
    ghost var bags: nat

    /**
     * The bag holds at most one bag's worth, and what was drawn followed by
     * what will be drawn from the bag is a sequence of full bags.
     */
    ghost predicate Valid()
      reads this
    {
      |bag| <= 7 && |history| + |bag| == 7 * bags && Fair(history + Reversed(bag))
    }

    constructor ()
      ensures Valid() && history == [] && IsFullBag(bag)
    {
      bag := [];
      history := [];
      bags := 0;
      new;
      assert history + Reversed(bag) == [];
      Refill();
    }

    /** Appends a permutation of all seven types, leaving the existing bag as its prefix. */
    method Shuffle()
      modifies this`bag
      ensures |bag| == old(|bag|) + 7 && bag[..old(|bag|)] == old(bag)
      ensures IsFullBag(bag[old(|bag|)..])
    {
      assert IsFullBag(AllPieces) && |multiset(AllPieces)| == 7;
      var newBag: seq<PieceType> :| IsFullBag(newBag);
      assert IsFullBag(newBag);
      calc {
        |newBag|;
        |multiset(newBag)|;
        { assert multiset(newBag) == multiset(AllPieces); }
        |multiset(AllPieces)|;
        7;
      }
      bag := bag + newBag;
      assert bag[old(|bag|)..] == newBag;
    }

    /** Refills an empty bag; the invariant survives. */
    method Refill()
      requires Valid() && bag == []
      modifies this`bag, this`bags
      ensures Valid() && IsFullBag(bag) && |bag| == 7 && history == old(history)
    {
      assert Fair(history) by {
        assert history + Reversed(bag) == history;
      }
      Shuffle();
      assert IsFullBag(bag) && Fair(history + Reversed(bag)) && |bag| == 7 by {
        assert bag == bag[0..];
        FairAfterRefill(history, bag, bags);
      }
      bags := bags + 1;
    }

    /** Hands out a fresh piece of the type at the end of the bag, refilling first if empty. */
    method Next() returns (p: Piece)
      requires Valid()
      modifies this
      ensures Valid() && fresh(p) && p.Valid()
      ensures p.x == StartX && p.y == StartY && p.orientation == North && p.style == Fill
      ensures old(bag) != [] ==> p.pieceType == old(bag[|bag| - 1]) && bag == old(bag[..|bag| - 1])
      ensures old(bag) == [] ==> |bag| == 6 && IsFullBag(bag + [p.pieceType])
      ensures history == old(history) + [p.pieceType]
      ensures Fair(history)
    {
      if bag == [] {
        Refill();
      }
      var t := Pop();
      p := new Piece(t);
    }

    /** Removes and returns the type at the end of a non-empty bag, recording the draw. */
    method Pop() returns (t: PieceType)
      requires Valid() && bag != []
      modifies this
      ensures Valid()
      ensures t == old(bag[|bag| - 1]) && bag == old(bag[..|bag| - 1]) && old(bag) == bag + [t]
      ensures history == old(history) + [t]
      ensures Fair(history)
    {
      ghost var full, drawn := bag, history;
      t := bag[|bag| - 1];
      bag := bag[..|bag| - 1];
      history := history + [t];
      PopSplit(full);
      assert history + Reversed(bag) == drawn + Reversed(full) by {
        assert Reversed(full) == [t] + Reversed(bag);
        assert drawn + [t] + Reversed(bag) == drawn + ([t] + Reversed(bag));
      }
      assert Fair(history) by {
        FairPrefix(history + Reversed(bag), |history|);
        assert (history + Reversed(bag))[..|history|] == history;
      }
    }

    /** The type the next call of Next will hand out; refills only an empty bag. */
    method Peek() returns (t: PieceType)
      requires Valid()
      modifies this`bag, this`bags
      ensures Valid()
      ensures old(bag) != [] ==> bag == old(bag)
      ensures old(bag) == [] ==> IsFullBag(bag)
      ensures bag != [] && t == bag[|bag| - 1]
    {
      if bag == [] {
        Refill();
      }
      t := bag[|bag| - 1];
    }
  }

  /** Peeking and then drawing gives a piece of the peeked type. */
  method PeekThenNext(g: PieceGenerator) returns (t: PieceType, p: Piece)
    requires g.Valid()
    modifies g
    ensures g.Valid() && p.pieceType == t
  {
    t := g.Peek();
    p := g.Next();
  }
}
