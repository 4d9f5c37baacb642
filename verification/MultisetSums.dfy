/** Sums of multisets. */
module MultisetSums {
  ghost function Sum(s: seq<multiset<nat>>): multiset<nat> {
    if s == [] then multiset{} else s[0] + Sum(s[1..])
  }

  lemma AddBoth(a: multiset<nat>, b: multiset<nat>, x: multiset<nat>, c: multiset<nat>, y: multiset<nat>)
    requires b + x == c + y
    ensures a + b + x == a + c + y
  {
    assert a + (b + x) == a + b + x && a + (c + y) == a + c + y;
  }

  type Ids = multiset<nat>

  /** One part `x` of what is still to be taken from `h'` is taken. */
  lemma TakeOne(h: Ids, all: Ids, h': Ids, rest: Ids, x: Ids, rest': Ids)
    requires h' + all == h + rest && rest == x + rest' && rest <= h'
    ensures h' - x + all == h + rest' && rest' <= h' - x && x <= h'
  {
    forall id
      ensures (h' - x + all)[id] == (h + rest')[id] && rest'[id] <= (h' - x)[id]
    {
      assert (h' + all)[id] == (h + rest)[id];
    }
  }

  lemma SubtractBoth(a: Ids, b: Ids, c: Ids)
    ensures a - b - c == a - (b + c)
  {
    forall id
      ensures (a - b - c)[id] == (a - (b + c))[id]
    {}
  }

  lemma AddThenSubtract(a: Ids, b: Ids)
    ensures a + b - b == a
  {}

  lemma AddAssoc(a: Ids, b: Ids, c: Ids)
    ensures a + b + c == a + (b + c)
  {}

  lemma BalanceChain(h: Ids, b: Ids, h': Ids, b': Ids, h'': Ids, b'': Ids)
    requires h' + b == h + b' && h'' + b' == h' + b''
    ensures h'' + b == h + b''
  {
    forall id
      ensures (h'' + b)[id] == (h + b'')[id]
    {
      assert (h' + b)[id] == (h + b')[id] && (h'' + b')[id] == (h' + b'')[id];
    }
  }

  /** The same change inside a larger whole. */
  lemma BalanceWhole(h: Ids, b: Ids, h': Ids, b': Ids, x: Ids, all: Ids, all': Ids)
    requires h' + b == h + b' && all' + (x + b) == all + (x + b')
    ensures h' + all == h + all'
  {
    forall id
      ensures (h' + all)[id] == (h + all')[id]
    {
      assert (h' + b)[id] == (h + b')[id] && (all' + (x + b))[id] == (all + (x + b'))[id];
    }
  }

  lemma BalanceKeepsPart(h: Ids, b: Ids, h': Ids, b': Ids)
    requires h' + b == h + b' && b <= h
    ensures b' <= h'
  {
    forall id
      ensures b'[id] <= h'[id]
    {
      assert (h' + b)[id] == (h + b')[id] && b[id] <= h[id];
    }
  }

  lemma AllTaken(h: Ids, all: Ids, h': Ids)
    requires h' + all == h
    ensures h' == h - all
  {
    assert forall id :: (h' + all)[id] == h[id];
  }

  lemma {:induction false} SumReplaced(s: seq<multiset<nat>>, i: nat, m: multiset<nat>)
    requires i < |s|
    ensures Sum(s[i := m]) + s[i] == Sum(s) + m
  {
    var t := s[i := m];
    if i == 0 {
      assert t[1..] == s[1..];
    } else {
      assert t[0] == s[0] && t[1..] == s[1..][i - 1 := m] && s[1..][i - 1] == s[i];
      SumReplaced(s[1..], i - 1, m);
      assert Sum(t) == s[0] + Sum(t[1..]) && Sum(s) == s[0] + Sum(s[1..]);
      AddBoth(s[0], Sum(t[1..]), s[i], Sum(s[1..]), m);
    }
  }

  lemma {:induction false} SumWithout(s: seq<multiset<nat>>, i: nat)
    requires i < |s|
    ensures Sum(s[..i] + s[i + 1..]) + s[i] == Sum(s)
  {
    var t := s[..i] + s[i + 1..];
    if i == 0 {
      assert t == s[1..];
    } else {
      assert t[1..] == s[1..][..i - 1] + s[1..][i..];
      SumWithout(s[1..], i - 1);
    }
  }
}
