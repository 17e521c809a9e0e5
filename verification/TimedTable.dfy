// A table whose entries live until a deadline that every use pushes forward.
// The NAT keeps three such tables. The theorem here replaces the table by the
// history of its uses.

module TimedTable {
  import opened Packets

  /** A connection entry: the tuple expected from outside, the tuple of the
      packet that opened it, and the time it expires. */
  datatype Entry = Entry(outer: Tuple, inner: Tuple, deadline: nat)

  /** What happens to a table at one time: nothing but expiry, or a use of a key. */
  datatype Use<+K> =
    | Idle(now: nat)
    | Arm(now: nat, key: K, outer: Tuple, inner: Tuple)

  function Expire<K>(table: map<K, Entry>, now: nat): map<K, Entry> {
    map k | k in table && now < table[k].deadline :: table[k]
  }

  /** A use keeps the tuples of an entry that is there and opens a new one otherwise. */
  function Touch<K>(table: map<K, Entry>, key: K, outer: Tuple, inner: Tuple, deadline: nat): map<K, Entry> {
    if key in table then table[key := table[key].(deadline := deadline)]
    else table[key := Entry(outer, inner, deadline)]
  }

  function Apply<K>(timeout: nat, table: map<K, Entry>, use: Use<K>): map<K, Entry> {
    var live := Expire(table, use.now);
    match use
    case Idle(_) => live
    case Arm(now, key, outer, inner) => Touch(live, key, outer, inner, now + timeout)
  }

  function After<K>(timeout: nat, uses: seq<Use<K>>): map<K, Entry> {
    if uses == [] then map[]
    else Apply(timeout, After(timeout, uses[..|uses| - 1]), uses[|uses| - 1])
  }

  // ---------- The history a table stands for ----------

  /** Times never fall, and none lies past now. */
  ghost predicate Ordered<K>(uses: seq<Use<K>>, now: nat) {
    && (forall i, j :: 0 <= i < j < |uses| ==> uses[i].now <= uses[j].now)
    && (forall i :: 0 <= i < |uses| ==> uses[i].now <= now)
  }

  ghost predicate Arms<K>(uses: seq<Use<K>>, i: int, key: K) {
    0 <= i < |uses| && uses[i].Arm? && uses[i].key == key
  }

  /** Use i of a key falls within the timeout before now. */
  ghost predicate Recent<K>(timeout: nat, uses: seq<Use<K>>, i: int, key: K, now: nat) {
    Arms(uses, i, key) && now < uses[i].now + timeout
  }

  /** Use i of a key comes when no earlier use of it is still recent. */
  ghost predicate Starts<K>(timeout: nat, uses: seq<Use<K>>, i: int, key: K) {
    Arms(uses, i, key) && forall j :: 0 <= j < i && Arms(uses, j, key) ==> uses[j].now + timeout <= uses[i].now
  }

  /** Use o is the last one that starts the key anew. */
  ghost predicate Opener<K>(timeout: nat, uses: seq<Use<K>>, o: int, key: K) {
    Starts(timeout, uses, o, key) && forall j :: o < j < |uses| ==> !Starts(timeout, uses, j, key)
  }

  /** Use i is the last use of the key. */
  ghost predicate LastUse<K>(uses: seq<Use<K>>, i: int, key: K) {
    Arms(uses, i, key) && forall j :: i < j < |uses| ==> !Arms(uses, j, key)
  }

  /** The entry under a key is the one the uses of the key call for: it carries
      the tuples of the use that opened it and expires one timeout after the
      last use. */
  ghost predicate Explained<K>(timeout: nat, uses: seq<Use<K>>, key: K, e: Entry) {
    && (exists i :: LastUse(uses, i, key) && e.deadline == uses[i].now + timeout)
    && (exists o :: Opener(timeout, uses, o, key) && e.outer == uses[o].outer && e.inner == uses[o].inner)
  }

  /** At any time past its uses a table holds exactly the keys that have a recent
      use, and each entry is explained by the uses of its key. */
  lemma HoldsRecentKeys<K>(timeout: nat, uses: seq<Use<K>>, key: K, now: nat)
    requires Ordered(uses, now)
    ensures key in Expire(After(timeout, uses), now) <==> exists i :: Recent(timeout, uses, i, key, now)
    ensures key in After(timeout, uses) ==> Explained(timeout, uses, key, After(timeout, uses)[key])
  {
    EntryIsExplained(timeout, uses, key, now);
    RecentUseIsHeld(timeout, uses, key, now);
    if key in Expire(After(timeout, uses), now) {
      var i :| LastUse(uses, i, key) && After(timeout, uses)[key].deadline == uses[i].now + timeout;
      assert Recent(timeout, uses, i, key, now);
    }
  }

  lemma {:induction false} RecentUseIsHeld<K>(timeout: nat, uses: seq<Use<K>>, key: K, now: nat)
    requires Ordered(uses, now)
    ensures forall i :: Recent(timeout, uses, i, key, now) ==>
      key in After(timeout, uses) && uses[i].now + timeout <= After(timeout, uses)[key].deadline
  {
    if uses != [] {
      var n := |uses| - 1;
      RecentUseIsHeld(timeout, uses[..n], key, uses[n].now);
      forall i | Recent(timeout, uses, i, key, now)
        ensures key in After(timeout, uses) && uses[i].now + timeout <= After(timeout, uses)[key].deadline
      {
        if i < n {
          assert Recent(timeout, uses[..n], i, key, uses[n].now);
        }
      }
    }
  }

  lemma {:induction false} EntryIsExplained<K>(timeout: nat, uses: seq<Use<K>>, key: K, now: nat)
    requires Ordered(uses, now)
    ensures key in After(timeout, uses) ==> Explained(timeout, uses, key, After(timeout, uses)[key])
  {
    if uses != [] && key in After(timeout, uses) {
      var n := |uses| - 1;
      EntryIsExplained(timeout, uses[..n], key, uses[n].now);
      if key in Expire(After(timeout, uses[..n]), uses[n].now) {
        EntryCarriesOver(timeout, uses, key, now);
      } else {
        EntryOpens(timeout, uses, key, now);
      }
    }
  }

  /** The last event finds the key in the table. */
  lemma EntryCarriesOver<K>(timeout: nat, uses: seq<Use<K>>, key: K, now: nat)
    requires Ordered(uses, now) && uses != []
    requires var n := |uses| - 1; key in Expire(After(timeout, uses[..n]), uses[n].now)
    requires var n := |uses| - 1; Explained(timeout, uses[..n], key, After(timeout, uses[..n])[key])
    ensures key in After(timeout, uses) && Explained(timeout, uses, key, After(timeout, uses)[key])
  {
    var n := |uses| - 1;
    var before, e := uses[..n], After(timeout, uses[..n])[key];
    var i :| LastUse(before, i, key) && e.deadline == before[i].now + timeout;
    var o :| Opener(timeout, before, o, key) && e.outer == before[o].outer && e.inner == before[o].inner;
    var e' := if uses[n].Arm? && uses[n].key == key then e.(deadline := uses[n].now + timeout) else e;
    assert key in After(timeout, uses) && After(timeout, uses)[key] == e';
    LastUseCarriesOver(timeout, uses, key, i, e');
    OpenerCarriesOver(timeout, uses, key, i, o);
  }

  lemma LastUseCarriesOver<K>(timeout: nat, uses: seq<Use<K>>, key: K, i: nat, e: Entry)
    requires uses != [] && LastUse(uses[..|uses| - 1], i, key)
    requires var n := |uses| - 1;
      e.deadline == timeout + if uses[n].Arm? && uses[n].key == key then uses[n].now else uses[i].now
    ensures exists l :: LastUse(uses, l, key) && e.deadline == uses[l].now + timeout
  {
    var n := |uses| - 1;
    forall j | i < j < n
      ensures !Arms(uses, j, key)
    {
      assert !Arms(uses[..n], j, key);
    }
    assert LastUse(uses, if Arms(uses, n, key) then n else i, key);
  }

  lemma OpenerCarriesOver<K>(timeout: nat, uses: seq<Use<K>>, key: K, i: nat, o: nat)
    requires uses != [] && Arms(uses[..|uses| - 1], i, key) && Opener(timeout, uses[..|uses| - 1], o, key)
    requires uses[|uses| - 1].now < uses[i].now + timeout
    ensures Opener(timeout, uses, o, key)
  {
    var n := |uses| - 1;
    PrefixStarts(timeout, uses, key, o);
    forall j | o < j < |uses|
      ensures !Starts(timeout, uses, j, key)
    {
      if j < n {
        PrefixStarts(timeout, uses, key, j);
      } else {
        assert Arms(uses, i, key);
      }
    }
  }

  /** The last event opens the key. */
  lemma EntryOpens<K>(timeout: nat, uses: seq<Use<K>>, key: K, now: nat)
    requires Ordered(uses, now) && uses != []
    requires var n := |uses| - 1; key in After(timeout, uses) && key !in Expire(After(timeout, uses[..n]), uses[n].now)
    ensures Explained(timeout, uses, key, After(timeout, uses)[key])
  {
    var n := |uses| - 1;
    RecentUseIsHeld(timeout, uses[..n], key, uses[n].now);
    forall j | 0 <= j < n && Arms(uses, j, key)
      ensures uses[j].now + timeout <= uses[n].now
    {
      assert Arms(uses[..n], j, key);
      assert !Recent(timeout, uses[..n], j, key, uses[n].now);
    }
    assert Opener(timeout, uses, n, key) && LastUse(uses, n, key);
  }

  /** Whether a use starts a key anew does not depend on later uses. */
  lemma PrefixStarts<K>(timeout: nat, uses: seq<Use<K>>, key: K, i: nat)
    requires i < |uses| - 1
    ensures Starts(timeout, uses, i, key) == Starts(timeout, uses[..|uses| - 1], i, key)
  {
    assert forall j :: 0 <= j <= i ==> Arms(uses, j, key) == Arms(uses[..|uses| - 1], j, key);
  }
}
