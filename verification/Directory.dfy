/** A directory file seen as the flat sequence of its dentry slots. */
module Directory {
  import opened Layout

  datatype Dentry = Dentry(name: string, ino: nat)

  const EMPTY: Dentry := Dentry("", 0)

  predicate Live(de: Dentry) {
    de.name != "" && de.ino >= ROOT_INO
  }

  predicate Hit(de: Dentry, q: string) {
    Live(de) && de.name == q
  }

  /** First slot from j on that holds the name q, |s| when there is none. */
  function FindFrom(s: seq<Dentry>, q: string, j: nat): (r: nat)
    requires j <= |s|
    ensures j <= r <= |s|
    ensures r < |s| ==> Hit(s[r], q)
    ensures forall i :: j <= i < r ==> !Hit(s[i], q)
    decreases |s| - j
  {
    if j == |s| || Hit(s[j], q) then j else FindFrom(s, q, j + 1)
  }

  function Find(s: seq<Dentry>, q: string): (r: nat)
    ensures r <= |s|
    ensures r < |s| ==> Hit(s[r], q)
    ensures forall i :: 0 <= i < r ==> !Hit(s[i], q)
  {
    FindFrom(s, q, 0)
  }

  /** First slot from j on with an empty name, |s| when there is none. */
  function EmptyFrom(s: seq<Dentry>, j: nat): (r: nat)
    requires j <= |s|
    ensures j <= r <= |s|
    ensures r < |s| ==> s[r].name == ""
    ensures forall i :: j <= i < r ==> s[i].name != ""
    decreases |s| - j
  {
    if j == |s| || s[j].name == "" then j else EmptyFrom(s, j + 1)
  }

  function FirstEmpty(s: seq<Dentry>): (r: nat)
    ensures r <= |s|
    ensures r < |s| ==> s[r].name == ""
    ensures forall i :: 0 <= i < r ==> s[i].name != ""
  {
    EmptyFrom(s, 0)
  }

  /** The slots of a newly allocated directory block holding one dentry. */
  function NewBlock(de: Dentry): (s: seq<Dentry>)
    ensures |s| == NUM_DIRENTS_PER_BLOCK && s[0] == de
    ensures forall i :: 0 < i < |s| ==> s[i] == EMPTY
  {
    [de] + seq(NUM_DIRENTS_PER_BLOCK - 1, _ => EMPTY)
  }

  /** Adding a dentry: the first empty slot is reused, else a new block is appended. */
  function Insert(s: seq<Dentry>, de: Dentry): (r: seq<Dentry>)
    ensures |s| <= |r| <= |s| + NUM_DIRENTS_PER_BLOCK
    ensures FirstEmpty(s) < |r| && r[FirstEmpty(s)] == de
    ensures forall i :: 0 <= i < |s| && i != FirstEmpty(s) ==> r[i] == s[i]
    ensures forall i :: |s| <= i < |r| && i != FirstEmpty(s) ==> r[i] == EMPTY
  {
    var e := FirstEmpty(s);
    if e < |s| then s[e := de] else s + NewBlock(de)
  }

  /** Indices below n of live slots. */
  function LiveBelow(s: seq<Dentry>, n: nat): (r: set<nat>)
    requires n <= |s|
  {
    set i: nat | i < n && Live(s[i])
  }

  function LiveSet(s: seq<Dentry>): (r: set<nat>) {
    LiveBelow(s, |s|)
  }

  /** The live dentries of s[..n], in slot order. */
  function Entries(s: seq<Dentry>, n: nat): (r: seq<Dentry>)
    requires n <= |s|
  {
    if n == 0 then []
    else if Live(s[n - 1]) then Entries(s, n - 1) + [s[n - 1]]
    else Entries(s, n - 1)
  }

  lemma LiveBelowStep(s: seq<Dentry>, n: nat)
    requires n < |s|
    ensures LiveBelow(s, n + 1) == if Live(s[n]) then LiveBelow(s, n) + {n} else LiveBelow(s, n)
    ensures |LiveBelow(s, n + 1)| == |LiveBelow(s, n)| + if Live(s[n]) then 1 else 0
  {
    assert LiveBelow(s, n + 1) == if Live(s[n]) then LiveBelow(s, n) + {n} else LiveBelow(s, n);
  }

  /** Once as many live slots have been seen as the directory has, no later slot is live. */
  lemma AllSeen(s: seq<Dentry>, n: nat)
    requires n <= |s|
    ensures LiveBelow(s, n) <= LiveSet(s)
    ensures |LiveBelow(s, n)| <= |LiveSet(s)|
    ensures |LiveBelow(s, n)| == |LiveSet(s)| <==> forall i :: n <= i < |s| ==> !Live(s[i])
  {
    SubsetCard(LiveBelow(s, n), LiveSet(s));
    if forall i :: n <= i < |s| ==> !Live(s[i]) {
      assert LiveBelow(s, n) == LiveSet(s);
    }
    if |LiveBelow(s, n)| == |LiveSet(s)| {
      forall i | n <= i < |s| ensures !Live(s[i]) {
        assert Live(s[i]) ==> i in LiveSet(s);
      }
    }
  }

  lemma SubsetCard<T>(a: set<T>, b: set<T>)
    requires a <= b
    ensures |a| <= |b|
    ensures |a| == |b| <==> a == b
  {
    assert b == a + (b - a);
    assert |b| == |a| + |b - a|;
  }

  /** The entries a scan collects are exactly the live slots, one each. */
  lemma {:induction false} EntriesCount(s: seq<Dentry>, n: nat)
    requires n <= |s|
    ensures |Entries(s, n)| == |LiveBelow(s, n)|
    ensures forall i :: 0 <= i < n && Live(s[i]) ==> s[i] in Entries(s, n)
    ensures forall de :: de in Entries(s, n) ==> Live(de) && de in s[..n]
  {
    if n > 0 {
      EntriesCount(s, n - 1);
      LiveBelowStep(s, n - 1);
      assert s[..n] == s[..n - 1] + [s[n - 1]];
    } else {
      assert LiveBelow(s, 0) == {};
    }
  }

  /** Entries come in slot order: a live dentry has as many before it as there are live slots before its own. */
  lemma {:induction false} EntriesAt(s: seq<Dentry>, n: nat, i: nat)
    requires i < n <= |s| && Live(s[i])
    ensures |LiveBelow(s, i)| < |Entries(s, n)| && Entries(s, n)[|LiveBelow(s, i)|] == s[i]
  {
    EntriesCount(s, n - 1);
    if i < n - 1 {
      EntriesAt(s, n - 1, i);
    }
  }

  /** Each slot is either blank or a live dentry. */
  predicate Clean(s: seq<Dentry>) {
    forall i :: 0 <= i < |s| ==> s[i] == EMPTY || Live(s[i])
  }

  lemma InsertLive(s: seq<Dentry>, de: Dentry)
    requires Clean(s) && Live(de)
    ensures Clean(Insert(s, de))
    ensures |LiveSet(Insert(s, de))| == |LiveSet(s)| + 1
  {
    var e := FirstEmpty(s);
    var r := Insert(s, de);
    assert LiveSet(r) == LiveSet(s) + {e};
  }

  lemma ClearLive(s: seq<Dentry>, j: nat)
    requires j < |s| && Live(s[j]) && Clean(s)
    ensures Clean(s[j := EMPTY])
    ensures |LiveSet(s[j := EMPTY])| == |LiveSet(s)| - 1
  {
    assert LiveSet(s) == LiveSet(s[j := EMPTY]) + {j};
  }

  /** Inserting a name leaves every search for another name where it was. */
  lemma FindInsert(s: seq<Dentry>, de: Dentry, q: string)
    requires q != de.name && q != ""
    ensures var r := Insert(s, de);
            if Find(s, q) < |s| then Find(r, q) == Find(s, q) else Find(r, q) == |r|
  {
    var r := Insert(s, de);
    var j := Find(s, q);
    var k := Find(r, q);
    if j < |s| {
      assert Hit(r[j], q);
    }
    if k < |r| && k < |s| {
      assert Hit(s[k], q);
    }
  }

  /** Searching for a name that was absent finds it where it was inserted. */
  lemma FindInserted(s: seq<Dentry>, de: Dentry)
    requires Live(de) && Find(s, de.name) == |s|
    ensures Find(Insert(s, de), de.name) == FirstEmpty(s)
  {
    var r := Insert(s, de);
    assert Hit(r[FirstEmpty(s)], de.name);
    forall i | 0 <= i < FirstEmpty(s) ensures !Hit(r[i], de.name) {
      assert r[i] == s[i];
    }
  }

  /** Overwriting slot j, which held the name p, leaves other searches where they were. */
  lemma FindUpdate(s: seq<Dentry>, j: nat, de: Dentry, q: string)
    requires j < |s| && !Hit(s[j], q) && !Hit(de, q)
    ensures Find(s[j := de], q) == Find(s, q)
  {
    var r := s[j := de];
    var a, b := Find(s, q), Find(r, q);
    if a < |s| { assert Hit(r[a], q); }
    if b < |s| { assert Hit(s[b], q); }
  }
}
