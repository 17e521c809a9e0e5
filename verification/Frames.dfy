// Packets as the shaping filters see them, and sequences of them.

module Frames {

  /** A packet by identity, direction and length in bytes. */
  datatype Frame = Frame(id: nat, ingoing: bool, len: nat)

  function Bytes(frames: seq<Frame>): nat {
    if frames == [] then 0 else frames[0].len + Bytes(frames[1..])
  }

  lemma {:induction false} BytesOfConcat(a: seq<Frame>, b: seq<Frame>)
    ensures Bytes(a + b) == Bytes(a) + Bytes(b)
  {
    if a == [] {
      assert a + b == b;
    } else {
      assert (a + b)[1..] == a[1..] + b;
      BytesOfConcat(a[1..], b);
    }
  }

  lemma BytesOfPrefix(frames: seq<Frame>, n: nat)
    requires n < |frames|
    ensures Bytes(frames[..n + 1]) == Bytes(frames[..n]) + frames[n].len
  {
    assert frames[..n + 1] == frames[..n] + [frames[n]];
    BytesOfConcat(frames[..n], [frames[n]]);
  }

  // ---------- What is left of a sequence ----------

  /** a is b with some packets taken out. */
  predicate Subsequence(a: seq<Frame>, b: seq<Frame>) {
    if b == [] then a == []
    else (a != [] && a[0] == b[0] && Subsequence(a[1..], b[1..])) || Subsequence(a, b[1..])
  }

  /** kept is all with exactly the lost packets taken out. */
  ghost predicate Sifted(kept: seq<Frame>, lost: multiset<Frame>, all: seq<Frame>) {
    Subsequence(kept, all) && multiset(kept) + lost == multiset(all)
  }

  lemma {:induction false} SubsequenceOfConcat(a: seq<Frame>, b: seq<Frame>, c: seq<Frame>, d: seq<Frame>)
    requires Subsequence(a, b) && Subsequence(c, d)
    ensures Subsequence(a + c, b + d)
  {
    if b == [] {
      assert a + c == c && b + d == d;
    } else {
      assert (b + d)[1..] == b[1..] + d;
      if Subsequence(a, b[1..]) {
        SubsequenceOfConcat(a, b[1..], c, d);
      } else {
        SubsequenceOfConcat(a[1..], b[1..], c, d);
        assert (a + c)[1..] == a[1..] + c;
      }
    }
  }

  lemma {:induction false} SubsequenceTransitive(a: seq<Frame>, b: seq<Frame>, c: seq<Frame>)
    requires Subsequence(a, b) && Subsequence(b, c)
    ensures Subsequence(a, c)
  {
    if c != [] {
      if Subsequence(b, c[1..]) {
        SubsequenceTransitive(a, b, c[1..]);
      } else if a != [] && a[0] == b[0] && Subsequence(a[1..], b[1..]) {
        SubsequenceTransitive(a[1..], b[1..], c[1..]);
      } else {
        SubsequenceTransitive(a, b[1..], c[1..]);
      }
    }
  }

  lemma {:induction false} SubsequenceReflexive(a: seq<Frame>)
    ensures Subsequence(a, a)
  {
    if a != [] {
      SubsequenceReflexive(a[1..]);
    }
  }

  lemma SiftedAfter(before: seq<Frame>, kept: seq<Frame>, lost: multiset<Frame>, all: seq<Frame>)
    requires Sifted(kept, lost, all)
    ensures Sifted(before + kept, lost, before + all)
  {
    SubsequenceReflexive(before);
    SubsequenceOfConcat(before, before, kept, all);
  }

  lemma SiftedBefore(kept: seq<Frame>, lost: multiset<Frame>, all: seq<Frame>, behind: seq<Frame>)
    requires Sifted(kept, lost, all)
    ensures Sifted(kept + behind, lost, all + behind)
  {
    SubsequenceReflexive(behind);
    SubsequenceOfConcat(kept, all, behind, behind);
  }

  lemma SiftedTwice(kept: seq<Frame>, lost: multiset<Frame>, mid: seq<Frame>, lost': multiset<Frame>, all: seq<Frame>)
    requires Sifted(kept, lost, mid) && Sifted(mid, lost', all)
    ensures Sifted(kept, lost + lost', all)
  {
    SubsequenceTransitive(kept, mid, all);
  }

  lemma SiftedOut(a: seq<Frame>, lost: seq<Frame>, b: seq<Frame>)
    ensures Sifted(a + b, multiset(lost), a + lost + b)
  {
    NothingIsSubsequence(lost);
    SiftedAfter(a, [], multiset(lost), lost);
    assert a + [] == a;
    SiftedBefore(a, multiset(lost), a + lost, b);
  }

  lemma Associative(a: seq<Frame>, b: seq<Frame>, c: seq<Frame>)
    ensures (a + b) + c == a + (b + c)
  {
  }

  /** What is held is followed by more, then sifted again. */
  lemma SiftedOnward(
    out: seq<Frame>, held: seq<Frame>, lost: multiset<Frame>, all: seq<Frame>, more: seq<Frame>,
    out': seq<Frame>, held': seq<Frame>, lost': multiset<Frame>)
    requires Sifted(out + held, lost, all) && Sifted(out' + held', lost', held + more)
    ensures Sifted((out + out') + held', lost + lost', all + more)
  {
    hide Sifted;
    SiftedBefore(out + held, lost, all, more);
    SiftedAfter(out, out' + held', lost', held + more);
    assert out + (held + more) == (out + held) + more && out + (out' + held') == (out + out') + held';
    SiftedTwice((out + out') + held', lost', (out + held) + more, lost, all + more);
    assert lost' + lost == lost + lost';
  }

  lemma {:induction false} NothingIsSubsequence(a: seq<Frame>)
    ensures Subsequence([], a)
  {
    if a != [] {
      NothingIsSubsequence(a[1..]);
    }
  }
}
