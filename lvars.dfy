/**
 * The variable-rename loop of `rename_with_ai` (test.py:73-82): for each
 * entry of the proposed map, in key order, the first local variable whose
 * current name equals the key is renamed to the sanitised value and marked
 * as user-named, and the number of entries that found a variable is
 * counted.
 */
module Lvars {
  import opened VariableName

  /** One local variable of the decompiled function: its name and whether
      it carries a user-given name. */
  datatype Binding = Binding(name: string, isUserNamed: bool)

  /** One `(old_name, new_name)` item of the proposed map. */
  type Entry = (string, string)

  /** Some variable is currently called `key`. */
  predicate Present(bs: seq<Binding>, key: string)
  {
    exists i :: 0 <= i < |bs| && bs[i].name == key
  }

  /** The index the inner scan stops at: the first variable called `key`,
      or `|bs|` when there is none. */
  function FirstMatch(bs: seq<Binding>, key: string): (k: nat)
    ensures k <= |bs|
    ensures forall i :: 0 <= i < k ==> bs[i].name != key
    ensures k < |bs| ==> bs[k].name == key
    ensures k < |bs| <==> Present(bs, key)
  {
    if bs == [] then 0
    else if bs[0].name == key then 0
    else 1 + FirstMatch(bs[1..], key)
  }

  /** The effect of one entry on the variables: only a variable called
      `key` can change, and when some variable is called `key` one of them
      ends up user-named with the sanitised value. */
  function RenameEntry(bs: seq<Binding>, key: string, newName: string): (r: seq<Binding>)
    ensures |r| == |bs|
    ensures forall i :: 0 <= i < |bs| && bs[i].name != key ==> r[i] == bs[i]
    ensures Present(bs, key) ==> exists i :: 0 <= i < |r| && r[i] == Binding(Sanitize(newName), true)
    ensures !Present(bs, key) ==> r == bs
  {
    var k := FirstMatch(bs, key);
    if k < |bs| then
      var r := bs[k := bs[k].(name := Sanitize(newName), isUserNamed := true)];
      assert r[k] == Binding(Sanitize(newName), true);
      r
    else bs
  }

  /** The variables and the counter after a sequence of entries. */
  datatype Renamed = Renamed(bindings: seq<Binding>, count: nat)

  /** The loop's effect after `entries`, each entry matched against the
      names left by the entries before it. */
  function RenameAll(bs: seq<Binding>, entries: seq<Entry>): (r: Renamed)
    ensures |r.bindings| == |bs|
    ensures r.count <= |entries|
    decreases |entries|
  {
    if entries == [] then Renamed(bs, 0)
    else
      var prev := RenameAll(bs, entries[..|entries| - 1]);
      var (key, newName) := entries[|entries| - 1];
      var hit := if Present(prev.bindings, key) then 1 else 0;
      Renamed(RenameEntry(prev.bindings, key, newName), prev.count + hit)
  }

  /** One more entry extends the fold by one `RenameEntry` step. */
  lemma RenameAllStep(bs: seq<Binding>, entries: seq<Entry>, i: nat)
    requires i < |entries|
    ensures RenameAll(bs, entries[..i + 1]) == Renamed(
      RenameEntry(RenameAll(bs, entries[..i]).bindings, entries[i].0, entries[i].1),
      RenameAll(bs, entries[..i]).count + (if Present(RenameAll(bs, entries[..i]).bindings, entries[i].0) then 1 else 0))
  {
    assert entries[..i + 1][..i] == entries[..i];
  }

  /** An entry whose key names the first variable renames that one. */
  lemma RenameEntryHead(bs: seq<Binding>, key: string, newName: string)
    requires bs != [] && bs[0].name == key
    ensures RenameEntry(bs, key, newName) == [Binding(Sanitize(newName), true)] + bs[1..]
    ensures Present(bs, key)
  {
    assert FirstMatch(bs, key) == 0;
  }

  /** The inner scan of test.py:76-82 for one entry: the first variable
      called `key` is renamed and marked, and the scan stops. */
  method RenameFirst(lvars: array<Binding>, key: string, cleanNewName: string) returns (hit: bool)
    modifies lvars
    ensures hit == Present(old(lvars[..]), key)
    ensures lvars[..] == (if hit then old(lvars[..])[FirstMatch(old(lvars[..]), key) := Binding(cleanNewName, true)] else old(lvars[..]))
  {
    hit := false;
    var j := 0;
    while j < lvars.Length
      invariant 0 <= j <= lvars.Length
      invariant lvars[..] == old(lvars[..])
      invariant forall k :: 0 <= k < j ==> lvars[k].name != key
    {
      if lvars[j].name == key {
        assert FirstMatch(old(lvars[..]), key) == j;
        lvars[j] := lvars[j].(name := cleanNewName, isUserNamed := true);
        hit := true;
        return;
      }
      j := j + 1;
    }
  }

  /** The nested loop of test.py:73-82 on the live variable list. */
  method ApplyRenames(lvars: array<Binding>, entries: seq<Entry>) returns (renamedCount: nat)
    modifies lvars
    ensures lvars[..] == RenameAll(old(lvars[..]), entries).bindings
    ensures renamedCount == RenameAll(old(lvars[..]), entries).count
  {
    ghost var bs := lvars[..];
    renamedCount := 0;
    var i := 0;
    while i < |entries|
      invariant 0 <= i <= |entries|
      invariant lvars[..] == RenameAll(bs, entries[..i]).bindings
      invariant renamedCount == RenameAll(bs, entries[..i]).count
    {
      var (oldName, newName) := entries[i];
      var cleanNewName := Sanitize(newName);
      ghost var prev := RenameAll(bs, entries[..i]);
      RenameAllStep(bs, entries, i);
      var hit := RenameFirst(lvars, oldName, cleanNewName);
      assert lvars[..] == RenameEntry(prev.bindings, oldName, newName);
      if hit {
        renamedCount := renamedCount + 1;
      }
      i := i + 1;
    }
    assert entries[..|entries|] == entries;
  }

  /** One entry changes at most one variable: the first one currently
      called `key`, which takes the sanitised name and the user-named flag.
      Without such a variable nothing changes. */
  lemma RenameEntryAt(bs: seq<Binding>, key: string, newName: string, i: nat)
    requires i < |bs|
    ensures |RenameEntry(bs, key, newName)| == |bs|
    ensures RenameEntry(bs, key, newName)[i] != bs[i] ==>
      bs[i].name == key && forall j :: 0 <= j < i ==> bs[j].name != key
    ensures bs[i].name == key && (forall j :: 0 <= j < i ==> bs[j].name != key) ==>
      RenameEntry(bs, key, newName)[i] == Binding(Sanitize(newName), true)
    ensures !Present(bs, key) ==> RenameEntry(bs, key, newName) == bs
  {
  }

  /** At most one position differs after one entry. */
  lemma RenameEntryChangesOne(bs: seq<Binding>, key: string, newName: string, i: nat, j: nat)
    requires i < |bs| && j < |bs|
    requires RenameEntry(bs, key, newName)[i] != bs[i]
    requires RenameEntry(bs, key, newName)[j] != bs[j]
    ensures i == j
  {
    RenameEntryAt(bs, key, newName, i);
    RenameEntryAt(bs, key, newName, j);
  }

  /** `name` is the key of some entry. */
  predicate IsKey(entries: seq<Entry>, name: string)
  {
    exists k :: 0 <= k < |entries| && entries[k].0 == name
  }

  /** A variable whose name is no key of the map is never renamed. */
  lemma {:induction false} UntouchedKept(bs: seq<Binding>, entries: seq<Entry>, i: nat)
    requires i < |bs|
    requires !IsKey(entries, bs[i].name)
    ensures RenameAll(bs, entries).bindings[i] == bs[i]
    decreases |entries|
  {
    if entries != [] {
      var init := entries[..|entries| - 1];
      assert !IsKey(init, bs[i].name) by {
        forall k | 0 <= k < |init| ensures init[k].0 != bs[i].name {
          assert init[k] == entries[k];
        }
      }
      UntouchedKept(bs, init, i);
      var prev := RenameAll(bs, init).bindings;
      var (key, newName) := entries[|entries| - 1];
      RenameEntryAt(prev, key, newName, i);
    }
  }

  /** Entry `k` of the map, scanning the names left by the entries before
      it, stops at variable `i`. */
  predicate MatchedAt(bs: seq<Binding>, entries: seq<Entry>, k: nat, i: nat)
    requires k < |entries|
  {
    FirstMatch(RenameAll(bs, entries[..k]).bindings, entries[k].0) == i
  }

  /** A variable that no entry's scan stops at keeps its name and flag,
      even when it shares its name with a key (a duplicate behind the
      variable that took the match). */
  lemma {:induction false} NeverMatchedKept(bs: seq<Binding>, entries: seq<Entry>, i: nat)
    requires i < |bs|
    requires forall k :: 0 <= k < |entries| ==> !MatchedAt(bs, entries, k, i)
    ensures RenameAll(bs, entries).bindings[i] == bs[i]
    decreases |entries|
  {
    if entries != [] {
      var n := |entries| - 1;
      var init := entries[..n];
      forall k | 0 <= k < |init| ensures !MatchedAt(bs, init, k, i) {
        assert init[..k] == entries[..k];
        assert init[k] == entries[k];
        assert !MatchedAt(bs, entries, k, i);
      }
      NeverMatchedKept(bs, init, i);
      var prev := RenameAll(bs, init).bindings;
      var (key, newName) := entries[n];
      assert !MatchedAt(bs, entries, n, i);
      RenameEntryAt(prev, key, newName, i);
    }
  }

  /** Two variables called `a1`: the map {"a1": "x", "x": "y"} renames the
      first one twice and never touches the second. */
  lemma DuplicateNameExample(bs: seq<Binding>, es: seq<Entry>)
    requires bs == [Binding("a1", false), Binding("a1", false)]
    requires es == [("a1", "x"), ("x", "y")]
    ensures RenameAll(bs, es) == Renamed([Binding("y", true), Binding("a1", false)], 2)
  {
    SanitizeFixesClean("x");
    SanitizeFixesClean("y");
    assert es[..0] == [] && es[..2] == es;
    RenameAllStep(bs, es, 0);
    RenameEntryHead(bs, "a1", "x");
    var mid := [Binding("x", true), Binding("a1", false)];
    assert RenameAll(bs, es[..1]) == Renamed(mid, 1);
    RenameAllStep(bs, es, 1);
    RenameEntryHead(mid, "x", "y");
  }

  /** A variable the loop changed ends with the user-named flag and the
      sanitised value of some entry; a user-named variable stays user-named. */
  lemma {:induction false} ChangedIsRenamed(bs: seq<Binding>, entries: seq<Entry>, i: nat)
    requires i < |bs|
    ensures var r := RenameAll(bs, entries).bindings;
      r[i] == bs[i]
      || (r[i].isUserNamed && exists k :: 0 <= k < |entries| && r[i].name == Sanitize(entries[k].1))
    ensures bs[i].isUserNamed ==> RenameAll(bs, entries).bindings[i].isUserNamed
    decreases |entries|
  {
    if entries != [] {
      var init := entries[..|entries| - 1];
      ChangedIsRenamed(bs, init, i);
      var prev := RenameAll(bs, init).bindings;
      var last := |entries| - 1;
      var (key, newName) := entries[last];
      RenameEntryAt(prev, key, newName, i);
      var r := RenameAll(bs, entries).bindings;
      if r[i] != prev[i] {
        assert r[i].name == Sanitize(entries[last].1);
      } else if prev[i] != bs[i] {
        var k :| 0 <= k < |init| && prev[i].name == Sanitize(init[k].1);
        assert init[k] == entries[k];
      }
    }
  }

  /** With a zero counter the variables are exactly as before, so skipping
      the save loses nothing. */
  lemma {:induction false} NoCountNoChange(bs: seq<Binding>, entries: seq<Entry>)
    requires RenameAll(bs, entries).count == 0
    ensures RenameAll(bs, entries).bindings == bs
    decreases |entries|
  {
    if entries != [] {
      var init := entries[..|entries| - 1];
      NoCountNoChange(bs, init);
      var (key, newName) := entries[|entries| - 1];
      if bs != [] {
        RenameEntryAt(RenameAll(bs, init).bindings, key, newName, 0);
      }
    }
  }

  /** The keys of the map are pairwise different, as in a JSON object. */
  predicate DistinctKeys(entries: seq<Entry>)
  {
    forall k, l :: 0 <= k < l < |entries| ==> entries[k].0 != entries[l].0
  }

  /** No sanitised value is itself a key of the map. */
  predicate ValuesAreNotKeys(entries: seq<Entry>)
  {
    forall k, l :: 0 <= k < |entries| && 0 <= l < |entries| ==> Sanitize(entries[k].1) != entries[l].0
  }

  /** The number of entries whose key names some variable before the loop. */
  function InitialHits(bs: seq<Binding>, entries: seq<Entry>): nat
    decreases |entries|
  {
    if entries == [] then 0
    else InitialHits(bs, entries[..|entries| - 1]) + (if Present(bs, entries[|entries| - 1].0) then 1 else 0)
  }

  /** One entry neither creates nor removes a name other than its key and
      its sanitised value. */
  lemma PresenceKeptByEntry(bs: seq<Binding>, key: string, newName: string, other: string)
    requires other != key && other != Sanitize(newName)
    ensures Present(RenameEntry(bs, key, newName), other) <==> Present(bs, other)
  {
    var r := RenameEntry(bs, key, newName);
    if Present(bs, other) {
      var i :| 0 <= i < |bs| && bs[i].name == other;
      RenameEntryAt(bs, key, newName, i);
    }
    if Present(r, other) {
      var i :| 0 <= i < |r| && r[i].name == other;
      RenameEntryAt(bs, key, newName, i);
    }
  }

  lemma {:induction false} PresenceKept(bs: seq<Binding>, entries: seq<Entry>, other: string)
    requires forall k :: 0 <= k < |entries| ==> other != entries[k].0 && other != Sanitize(entries[k].1)
    ensures Present(RenameAll(bs, entries).bindings, other) <==> Present(bs, other)
    decreases |entries|
  {
    if entries != [] {
      var init := entries[..|entries| - 1];
      forall k | 0 <= k < |init| ensures other != init[k].0 && other != Sanitize(init[k].1) {
        assert init[k] == entries[k];
      }
      PresenceKept(bs, init, other);
      var (key, newName) := entries[|entries| - 1];
      PresenceKeptByEntry(RenameAll(bs, init).bindings, key, newName, other);
    }
  }

  /** When the keys are distinct and no new name is itself a key, the counter
      equals the number of keys that name a variable before the loop. In
      general it counts the entries that found a variable at their turn,
      against names already rewritten by earlier entries. */
  lemma {:induction false} CountIsInitialHits(bs: seq<Binding>, entries: seq<Entry>)
    requires DistinctKeys(entries) && ValuesAreNotKeys(entries)
    ensures RenameAll(bs, entries).count == InitialHits(bs, entries)
    decreases |entries|
  {
    if entries != [] {
      var n := |entries| - 1;
      var init := entries[..n];
      assert DistinctKeys(init) && ValuesAreNotKeys(init) by {
        forall k | 0 <= k < |init| ensures init[k] == entries[k] { }
      }
      CountIsInitialHits(bs, init);
      forall k | 0 <= k < |init| ensures entries[n].0 != init[k].0 && entries[n].0 != Sanitize(init[k].1) {
        assert init[k] == entries[k];
      }
      PresenceKept(bs, init, entries[n].0);
    }
  }

  /** Matching sees names written by earlier entries: with the map
      {"a1": "v3", "v3": "x"} the variable first called `a1` is renamed
      twice and both entries are counted, though only one key names a
      variable before the loop. */
  lemma ChainedRenameExample(bs: seq<Binding>, es: seq<Entry>)
    requires bs == [Binding("a1", false), Binding("a2", false)]
    requires es == [("a1", "v3"), ("v3", "x")]
    ensures RenameAll(bs, es) == Renamed([Binding("x", true), Binding("a2", false)], 2)
    ensures InitialHits(bs, es) == 1
  {
    ChainedRenames(bs, es);
    ChainedInitialHits(bs, es);
  }

  lemma ChainedRenames(bs: seq<Binding>, es: seq<Entry>)
    requires bs == [Binding("a1", false), Binding("a2", false)]
    requires es == [("a1", "v3"), ("v3", "x")]
    ensures RenameAll(bs, es) == Renamed([Binding("x", true), Binding("a2", false)], 2)
  {
    SanitizeFixesClean("v3");
    SanitizeFixesClean("x");
    assert es[..0] == [] && es[..2] == es;
    RenameAllStep(bs, es, 0);
    RenameEntryHead(bs, "a1", "v3");
    var mid := [Binding("v3", true), Binding("a2", false)];
    assert RenameAll(bs, es[..1]) == Renamed(mid, 1);
    RenameAllStep(bs, es, 1);
    RenameEntryHead(mid, "v3", "x");
  }

  lemma ChainedInitialHits(bs: seq<Binding>, es: seq<Entry>)
    requires bs == [Binding("a1", false), Binding("a2", false)]
    requires es == [("a1", "v3"), ("v3", "x")]
    ensures InitialHits(bs, es) == 1
  {
    assert es[..1][..0] == [] && es[..1][0].0 == "a1" && es[1].0 == "v3";
    assert bs[0].name == "a1";
    assert InitialHits(bs, es[..1]) == 1;
    assert !Present(bs, "v3");
  }
}
