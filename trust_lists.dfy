/** The list computations inside the trust command: the candidate list an
    `add` builds from its arguments, the containment-guarded appends of a
    direct `add` and of `confirm`, and the first-occurrence removals of
    `remove`. */
module TrustLists {
  import opened Sequences
  import opened Players

  /** The guard for one name of an `add`, with Java's precedence:
      `hasPlayedBefore() || (isOnline() && !toTrust.contains(uuid))`. */
  predicate Admits(toTrust: seq<Uuid>, p: OfflinePlayer) {
    p.hasPlayedBefore || (p.isOnline && p.uniqueId !in toTrust)
  }

  /** The candidate list `toTrust` after the `forEach` over `names`
      (left to right, one guarded `add` per name). */
  function Propose(names: seq<string>, resolve: string -> OfflinePlayer): seq<Uuid>
    decreases |names|
  {
    if names == [] then []
    else
      var toTrust := Propose(names[..|names| - 1], resolve);
      var p := resolve(names[|names| - 1]);
      if Admits(toTrust, p) then toTrust + [p.uniqueId] else toTrust
  }

  /** The UUIDs `Bukkit.getOfflinePlayer(name).getUniqueId()` of `names`. */
  function UniqueIds(names: seq<string>, resolve: string -> OfflinePlayer): seq<Uuid> {
    seq(|names|, i requires 0 <= i < |names| => resolve(names[i]).uniqueId)
  }

  /** A player who has played before or is online: the one a name must
      resolve to for its identity to be proposed. */
  predicate Known(p: OfflinePlayer) {
    p.hasPlayedBefore || p.isOnline
  }

  /** A UUID is proposed exactly when some name resolves to it and to a known
      player; every name counts, the first argument included. */
  lemma {:induction false} ProposeMembers(names: seq<string>, resolve: string -> OfflinePlayer, u: Uuid)
    ensures u in Propose(names, resolve) <==>
      exists i :: 0 <= i < |names| && resolve(names[i]).uniqueId == u && Known(resolve(names[i]))
    decreases |names|
  {
    if names != [] {
      var init := names[..|names| - 1];
      var last := |names| - 1;
      ProposeMembers(init, resolve, u);
      var p := resolve(names[last]);
      if u in Propose(names, resolve) {
        if u in Propose(init, resolve) {
          var i :| 0 <= i < |init| && resolve(init[i]).uniqueId == u && Known(resolve(init[i]));
          assert names[i] == init[i];
        } else {
          assert p.uniqueId == u && Known(p);
        }
      } else {
        forall i | 0 <= i < |names| && resolve(names[i]).uniqueId == u
          ensures !Known(resolve(names[i]))
        {
          if i < last {
            assert names[i] == init[i];
          }
        }
      }
    }
  }

  /** The candidate list is no longer than the argument list. */
  lemma {:induction false} ProposeLength(names: seq<string>, resolve: string -> OfflinePlayer)
    ensures |Propose(names, resolve)| <= |names|
    decreases |names|
  {
    if names != [] {
      ProposeLength(names[..|names| - 1], resolve);
    }
  }

  /** The containment test only guards online players who have not played
      before: when no name resolves to a player who has played before, the
      candidate list has no duplicates. */
  lemma {:induction false} ProposeNoDupWithoutVeterans(names: seq<string>, resolve: string -> OfflinePlayer)
    requires forall i :: 0 <= i < |names| ==> !resolve(names[i]).hasPlayedBefore
    ensures NoDup(Propose(names, resolve))
    decreases |names|
  {
    if names != [] {
      var init := names[..|names| - 1];
      assert forall i :: 0 <= i < |init| ==> init[i] == names[i];
      ProposeNoDupWithoutVeterans(init, resolve);
    }
  }

  /** When every name resolves to a player who has played before, the
      containment test never applies: every name is proposed, in order and
      with its repeats, the first argument included. */
  lemma {:induction false} ProposeAllVeterans(names: seq<string>, resolve: string -> OfflinePlayer)
    requires forall i :: 0 <= i < |names| ==> resolve(names[i]).hasPlayedBefore
    ensures Propose(names, resolve) == UniqueIds(names, resolve)
    decreases |names|
  {
    if names != [] {
      var init := names[..|names| - 1];
      assert forall i :: 0 <= i < |init| ==> init[i] == names[i];
      ProposeAllVeterans(init, resolve);
      assert UniqueIds(names, resolve) == UniqueIds(init, resolve) + [resolve(names[|names| - 1]).uniqueId];
    }
  }

  /** Two names of the same veteran player are both proposed: the candidate
      list of `add Bob Bob` holds Bob twice. */
  lemma ProposeRepeatsVeterans(bob: Uuid)
    ensures Propose(["add", "Bob", "Bob"],
                    n => if n == "Bob" then OfflinePlayer(bob, true, false)
                         else OfflinePlayer(Uuid(0, 0), false, false))
            == [bob, bob]
  {
    var resolve := n => if n == "Bob" then OfflinePlayer(bob, true, false)
                        else OfflinePlayer(Uuid(0, 0), false, false);
    assert ["add", "Bob", "Bob"][..2] == ["add", "Bob"];
    assert ["add", "Bob"][..1] == ["add"];
    assert ["add"][..0] == [];
    assert Propose(["add"], resolve) == [];
  }

  /** The subcommand word itself is resolved as a player name: a veteran
      player called "add" is proposed by `add Bob`. */
  lemma ProposeIncludesSubcommandWord(bob: Uuid, named: Uuid)
    requires bob != named
    ensures Propose(["add", "Bob"],
                    n => if n == "Bob" then OfflinePlayer(bob, true, false)
                         else OfflinePlayer(named, true, false))
            == [named, bob]
  {
  }

  // ---------------------------------------------------------------------------
  // `toTrust.forEach(uuid -> { if (!trusted.contains(uuid)) trusted.add(uuid); })`

  /** The trust list after the guarded appends of every element of `xs`
      in order. */
  function AppendAbsent(trusted: seq<Uuid>, xs: seq<Uuid>): seq<Uuid>
    decreases |xs|
  {
    if xs == [] then trusted
    else AppendAbsent(if xs[0] in trusted then trusted else trusted + [xs[0]], xs[1..])
  }

  /** The old list is kept, untouched, as a prefix. */
  lemma {:induction false} AppendAbsentPrefix(trusted: seq<Uuid>, xs: seq<Uuid>)
    ensures |trusted| <= |AppendAbsent(trusted, xs)|
    ensures AppendAbsent(trusted, xs)[..|trusted|] == trusted
    decreases |xs|
  {
    if xs != [] {
      var next := if xs[0] in trusted then trusted else trusted + [xs[0]];
      AppendAbsentPrefix(next, xs[1..]);
      assert next[..|trusted|] == trusted;
    }
  }

  /** Afterwards the list holds exactly the old entries and the new ones. */
  lemma {:induction false} AppendAbsentMembers(trusted: seq<Uuid>, xs: seq<Uuid>)
    ensures forall u :: u in AppendAbsent(trusted, xs) <==> u in trusted || u in xs
    decreases |xs|
  {
    if xs != [] {
      var next := if xs[0] in trusted then trusted else trusted + [xs[0]];
      AppendAbsentMembers(next, xs[1..]);
      assert forall u :: u in xs <==> u == xs[0] || u in xs[1..];
    }
  }

  /** Every appended entry was absent from the list when it was appended. */
  lemma {:induction false} AppendAbsentFresh(trusted: seq<Uuid>, xs: seq<Uuid>)
    ensures forall i :: |trusted| <= i < |AppendAbsent(trusted, xs)| ==>
      AppendAbsent(trusted, xs)[i] !in AppendAbsent(trusted, xs)[..i]
    decreases |xs|
  {
    if xs != [] {
      var next := if xs[0] in trusted then trusted else trusted + [xs[0]];
      AppendAbsentFresh(next, xs[1..]);
      AppendAbsentPrefix(next, xs[1..]);
      var r := AppendAbsent(trusted, xs);
      if xs[0] !in trusted {
        assert r[..|trusted|] == next[..|trusted|] == trusted;
        assert r[|trusted|] == next[|trusted|] == xs[0];
      }
    }
  }

  /** The no-duplicates invariant: a duplicate-free trust list stays
      duplicate-free, whatever repeats `xs` holds. */
  lemma AppendAbsentNoDup(trusted: seq<Uuid>, xs: seq<Uuid>)
    requires NoDup(trusted)
    ensures NoDup(AppendAbsent(trusted, xs))
  {
    var r := AppendAbsent(trusted, xs);
    AppendAbsentPrefix(trusted, xs);
    AppendAbsentFresh(trusted, xs);
    forall i, j | 0 <= i < j < |r| ensures r[i] != r[j] {
      if j < |trusted| {
        assert r[i] == trusted[i] && r[j] == trusted[j];
      } else {
        assert r[i] in r[..j];
      }
    }
  }

  /** The appended entries come in the order of their first occurrence in `xs`. */
  lemma {:induction false} AppendAbsentOrder(trusted: seq<Uuid>, xs: seq<Uuid>)
    ensures forall i :: |trusted| <= i < |AppendAbsent(trusted, xs)| ==> AppendAbsent(trusted, xs)[i] in xs
    ensures forall i, j :: |trusted| <= i < j < |AppendAbsent(trusted, xs)| ==>
      IndexOf(xs, AppendAbsent(trusted, xs)[i]) < IndexOf(xs, AppendAbsent(trusted, xs)[j])
    decreases |xs|
  {
    var r := AppendAbsent(trusted, xs);
    if xs == [] {
      assert r == trusted;
    } else {
      var x := xs[0];
      var rest := xs[1..];
      var next := if x in trusted then trusted else trusted + [x];
      assert r == AppendAbsent(next, rest);
      AppendAbsentOrder(next, rest);
      AppendAbsentPrefix(next, rest);
      AppendAbsentFresh(trusted, xs);
      AppendAbsentPrefix(trusted, xs);
      // the tail of r holds no entry of the old list
      assert forall i :: |trusted| <= i < |r| ==> r[i] !in trusted by {
        forall i | |trusted| <= i < |r| ensures r[i] !in trusted {
          assert r[..|trusted|] == trusted;
          assert forall k :: 0 <= k < |trusted| ==> trusted[k] == r[..i][k];
        }
      }
      forall i | |next| <= i < |r| ensures r[i] != x && IndexOf(xs, r[i]) == 1 + IndexOf(rest, r[i]) {
        if x in trusted {
          assert r[i] != x;
        } else {
          assert r[..i][|trusted|] == r[|trusted|] == next[|trusted|] == x;
        }
      }
      if x !in trusted {
        assert r[|trusted|] == next[|trusted|] == x;
      }
    }
  }

  // ---------------------------------------------------------------------------
  // `trusted.remove(uuid)`: `List.remove(Object)` deletes the first occurrence.

  /** `s` without the first occurrence of `x`. */
  function RemoveFirst(s: seq<Uuid>, x: Uuid): seq<Uuid>
    decreases |s|
  {
    if s == [] then []
    else if s[0] == x then s[1..]
    else [s[0]] + RemoveFirst(s[1..], x)
  }

  /** Removal deletes the first occurrence of `x` (if any) and keeps every
      other entry in its relative order. */
  lemma {:induction false} RemoveFirstDeletesFirst(s: seq<Uuid>, x: Uuid)
    ensures x in s ==> RemoveFirst(s, x) == s[..IndexOf(s, x)] + s[IndexOf(s, x) + 1..]
    ensures x !in s ==> RemoveFirst(s, x) == s
    decreases |s|
  {
    if s != [] && s[0] != x {
      RemoveFirstDeletesFirst(s[1..], x);
      if x in s {
        var k := IndexOf(s[1..], x);
        assert IndexOf(s, x) == k + 1;
        assert s[..k + 1] == [s[0]] + s[1..][..k];
        assert s[k + 2..] == s[1..][k + 1..];
      } else {
        assert s == [s[0]] + s[1..];
      }
    }
  }

  /** Removal takes away exactly one copy of `x`, if there is one. */
  lemma {:induction false} RemoveFirstMultiset(s: seq<Uuid>, x: Uuid)
    ensures multiset(RemoveFirst(s, x)) == multiset(s) - multiset{x}
    decreases |s|
  {
    if s != [] {
      assert s == [s[0]] + s[1..];
      if s[0] != x {
        RemoveFirstMultiset(s[1..], x);
      }
    }
  }

  /** Removal yields a subsequence of the list. */
  lemma {:induction false} RemoveFirstSubsequence(s: seq<Uuid>, x: Uuid)
    ensures IsSubsequence(RemoveFirst(s, x), s)
    decreases |s|
  {
    if s != [] {
      if s[0] == x {
        SubsequenceRefl(s[1..]);
        if s[1..] != [] {
          SubsequencePrepend(s[1..], [s[0]], s[1..]);
          assert [s[0]] + s[1..] == s;
        }
      } else {
        RemoveFirstSubsequence(s[1..], x);
        assert RemoveFirst(s, x)[1..] == RemoveFirst(s[1..], x);
      }
    }
  }

  /** `trusted` after `trusted.remove(u)` for each `u` of `xs` in order. */
  function RemoveEach(s: seq<Uuid>, xs: seq<Uuid>): seq<Uuid>
    decreases |xs|
  {
    if xs == [] then s else RemoveEach(RemoveFirst(s, xs[0]), xs[1..])
  }

  /** One copy of each named UUID is taken away. */
  lemma {:induction false} RemoveEachMultiset(s: seq<Uuid>, xs: seq<Uuid>)
    ensures multiset(RemoveEach(s, xs)) == multiset(s) - multiset(xs)
    decreases |xs|
  {
    if xs != [] {
      RemoveFirstMultiset(s, xs[0]);
      RemoveEachMultiset(RemoveFirst(s, xs[0]), xs[1..]);
      assert xs == [xs[0]] + xs[1..];
      assert multiset(xs) == multiset{xs[0]} + multiset(xs[1..]);
    }
  }

  /** The entries that remain keep their relative order. */
  lemma {:induction false} RemoveEachSubsequence(s: seq<Uuid>, xs: seq<Uuid>)
    ensures IsSubsequence(RemoveEach(s, xs), s)
    decreases |xs|
  {
    if xs == [] {
      SubsequenceRefl(s);
    } else {
      RemoveFirstSubsequence(s, xs[0]);
      RemoveEachSubsequence(RemoveFirst(s, xs[0]), xs[1..]);
      SubsequenceTrans(RemoveEach(s, xs), RemoveFirst(s, xs[0]), s);
    }
  }

  /** On a duplicate-free list, every named UUID is gone afterwards, every
      other entry is still there, and no duplicate appears. */
  lemma RemoveEachNoDup(s: seq<Uuid>, xs: seq<Uuid>)
    requires NoDup(s)
    ensures NoDup(RemoveEach(s, xs))
    ensures forall x :: x in xs ==> x !in RemoveEach(s, xs)
    ensures forall y :: y in s && y !in xs ==> y in RemoveEach(s, xs)
  {
    var r := RemoveEach(s, xs);
    RemoveEachSubsequence(s, xs);
    SubsequenceNoDup(r, s);
    RemoveEachMultiset(s, xs);
    assert forall y :: y in s ==> multiset(s)[y] == 1 by {
      forall y | y in s ensures multiset(s)[y] == 1 {
        NoDupCountsOne(s, y);
      }
    }
    forall x | x in xs ensures x !in r {
      if x in s {
        assert multiset(r)[x] == 0;
      } else {
        SubsequenceMembers(r, s);
      }
    }
    forall y | y in s && y !in xs ensures y in r {
      assert multiset(xs)[y] == 0;
      assert multiset(r)[y] == 1;
    }
  }

  /** In a duplicate-free list an element occurs once. */
  lemma {:induction false} NoDupCountsOne(s: seq<Uuid>, y: Uuid)
    requires NoDup(s) && y in s
    ensures multiset(s)[y] == 1
    decreases |s|
  {
    assert s == [s[0]] + s[1..];
    assert NoDup(s[1..]) by {
      forall i, j | 0 <= i < j < |s[1..]| ensures s[1..][i] != s[1..][j] {
        assert s[1..][i] == s[i + 1] && s[1..][j] == s[j + 1];
      }
    }
    if s[0] == y {
      assert y !in s[1..] by {
        assert forall k :: 0 <= k < |s[1..]| ==> s[1..][k] == s[k + 1];
      }
    } else {
      NoDupCountsOne(s[1..], y);
    }
  }
}
