/** What one `/trust` command does to the two caches, stated about the
    `Command` function that `LWCTrust.OnCommand` is proved to follow. */
module CommandProperties {
  import opened Sequences
  import opened JavaStrings
  import opened Players
  import opened TrustLists
  import opened Commands

  /** Every trust list is duplicate-free. */
  predicate AllNoDup(m: TrustMap) {
    forall k :: k in m ==> NoDup(m[k])
  }

  /** Only the entry of `owner` may differ, and no entry disappears. */
  predicate SameExceptFor(m: TrustMap, m': TrustMap, owner: Uuid) {
    forall k :: k in m && k != owner ==> k in m' && m'[k] == m[k]
  }

  /** A word is recognised as at most one subcommand name, so the order of
      the handler's tests decides nothing beyond the permission checks. */
  lemma SubcommandNamesExclusive(w: string)
    ensures EqualsIgnoreCase("add", w) ==> !EqualsIgnoreCase("remove", w) && !EqualsIgnoreCase("list", w) &&
                                           !EqualsIgnoreCase("confirm", w) && !EqualsIgnoreCase("cancel", w)
    ensures EqualsIgnoreCase("remove", w) ==> !EqualsIgnoreCase("list", w) && !EqualsIgnoreCase("confirm", w) &&
                                              !EqualsIgnoreCase("cancel", w)
    ensures EqualsIgnoreCase("list", w) ==> !EqualsIgnoreCase("confirm", w) && !EqualsIgnoreCase("cancel", w)
    ensures EqualsIgnoreCase("confirm", w) ==> !EqualsIgnoreCase("cancel", w)
  {
    if EqualsIgnoreCase("remove", w) && EqualsIgnoreCase("cancel", w) {
      assert CharEqualsIgnoreCase("remove"[0], w[0]) && CharEqualsIgnoreCase("cancel"[0], w[0]);
      LetterMatches('r', w[0]);
      LetterMatches('c', w[0]);
      assert false;
    }
  }

  /** The handler returns `false` exactly when there is no argument, the
      sender is not a player, or the first argument names no subcommand the
      player may use; and then neither cache changes. */
  lemma UnhandledIffRejected(c: Caches, sender: Sender, args: seq<string>, confirm: bool,
                             resolve: string -> OfflinePlayer)
    ensures !Command(c, sender, args, confirm, resolve).1 <==>
      |args| == 0 || sender.Console? ||
      (!(EqualsIgnoreCase("add", args[0]) && AddPermission in sender.permissions) &&
       !(EqualsIgnoreCase("remove", args[0]) && RemovePermission in sender.permissions) &&
       !(EqualsIgnoreCase("list", args[0]) && ListPermission in sender.permissions) &&
       !EqualsIgnoreCase("confirm", args[0]) &&
       !EqualsIgnoreCase("cancel", args[0]))
    ensures !Command(c, sender, args, confirm, resolve).1 ==> Command(c, sender, args, confirm, resolve).0 == c
  {
  }

  /** `confirm` with a pending list: every pending UUID ends up trusted, the
      old trust list stays as a prefix, only absent UUIDs are appended, each
      once and in the order they are pending, and the pending list is gone;
      no other owner's entries change. */
  lemma ConfirmMergesPending(c: Caches, sender: Sender, args: seq<string>, confirm: bool,
                             resolve: string -> OfflinePlayer)
    requires sender.Player? && |args| >= 1 && EqualsIgnoreCase("confirm", args[0])
    requires sender.uniqueId in c.confirmCache
    ensures var (c', handled) := Command(c, sender, args, confirm, resolve);
      var owner := sender.uniqueId;
      var before := LoadedList(c.trustCache, owner);
      var pending := c.confirmCache[owner];
      handled && owner in c'.trustCache &&
      var after := c'.trustCache[owner];
      && (forall u :: u in pending ==> u in after)
      && (forall u :: u in after ==> u in before || u in pending)
      && |before| <= |after| && after[..|before|] == before
      && (forall i :: |before| <= i < |after| ==> after[i] !in after[..i] && after[i] in pending)
      && (forall i, j :: |before| <= i < j < |after| ==> IndexOf(pending, after[i]) < IndexOf(pending, after[j]))
      && c'.confirmCache == c.confirmCache - {owner}
      && SameExceptFor(c.trustCache, c'.trustCache, owner)
      && c'.trustCache.Keys == c.trustCache.Keys + {owner}
  {
    SubcommandNamesExclusive(args[0]);
    var owner := sender.uniqueId;
    var before := LoadedList(c.trustCache, owner);
    var pending := c.confirmCache[owner];
    AppendAbsentMembers(before, pending);
    AppendAbsentPrefix(before, pending);
    AppendAbsentFresh(before, pending);
    AppendAbsentOrder(before, pending);
  }

  /** `confirm` or `cancel` with nothing pending changes neither cache. */
  lemma ConfirmOrCancelWithoutPending(c: Caches, sender: Sender, args: seq<string>, confirm: bool,
                                      resolve: string -> OfflinePlayer)
    requires sender.Player? && |args| >= 1
    requires EqualsIgnoreCase("confirm", args[0]) || EqualsIgnoreCase("cancel", args[0])
    requires sender.uniqueId !in c.confirmCache
    ensures Command(c, sender, args, confirm, resolve) == (c, true)
  {
    SubcommandNamesExclusive(args[0]);
  }

  /** `cancel` with a pending list drops that owner's pending list and
      nothing else. */
  lemma CancelDropsOwnPending(c: Caches, sender: Sender, args: seq<string>, confirm: bool,
                              resolve: string -> OfflinePlayer)
    requires sender.Player? && |args| >= 1 && EqualsIgnoreCase("cancel", args[0])
    requires sender.uniqueId in c.confirmCache
    ensures var (c', handled) := Command(c, sender, args, confirm, resolve);
      handled &&
      c'.trustCache == c.trustCache &&
      c'.confirmCache.Keys == c.confirmCache.Keys - {sender.uniqueId} &&
      forall k :: k in c'.confirmCache ==> c'.confirmCache[k] == c.confirmCache[k]
  {
    SubcommandNamesExclusive(args[0]);
  }

  /** `add` with confirmation on: the candidate list, built from every
      argument including the subcommand word, replaces the owner's pending
      list, with its order and its repeats; no trust list changes. */
  lemma AddWithConfirmationProposes(c: Caches, sender: Sender, args: seq<string>,
                                    resolve: string -> OfflinePlayer)
    requires sender.Player? && |args| >= 1 && EqualsIgnoreCase("add", args[0])
    requires AddPermission in sender.permissions
    ensures var (c', handled) := Command(c, sender, args, true, resolve);
      var owner := sender.uniqueId;
      handled &&
      c'.trustCache == c.trustCache &&
      owner in c'.confirmCache &&
      SameExceptFor(c.confirmCache, c'.confirmCache, owner) &&
      c'.confirmCache.Keys == c.confirmCache.Keys + {owner} &&
      c'.confirmCache[owner] == Propose(args, resolve) &&
      forall u :: u in c'.confirmCache[owner] <==>
        exists i :: 0 <= i < |args| && resolve(args[i]).uniqueId == u && Known(resolve(args[i]))
  {
    SubcommandNamesExclusive(args[0]);
    forall u {
      ProposeMembers(args, resolve, u);
    }
  }

  /** A direct `add` (confirmation off): every candidate is trusted
      afterwards, the old list stays a prefix, nothing is appended that was
      there already, the appended UUIDs keep the order of the candidate
      list, and no pending list changes. */
  lemma DirectAddTrustsCandidates(c: Caches, sender: Sender, args: seq<string>,
                                  resolve: string -> OfflinePlayer)
    requires sender.Player? && |args| >= 1 && EqualsIgnoreCase("add", args[0])
    requires AddPermission in sender.permissions
    ensures var (c', handled) := Command(c, sender, args, false, resolve);
      var owner := sender.uniqueId;
      var before := LoadedList(c.trustCache, owner);
      handled && c'.confirmCache == c.confirmCache && owner in c'.trustCache &&
      var after := c'.trustCache[owner];
      && (forall u :: u in after <==> u in before || u in Propose(args, resolve))
      && |before| <= |after| && after[..|before|] == before
      && (forall i :: |before| <= i < |after| ==> after[i] !in after[..i])
      && (forall i, j :: |before| <= i < j < |after| ==>
            IndexOf(Propose(args, resolve), after[i]) < IndexOf(Propose(args, resolve), after[j]))
      && SameExceptFor(c.trustCache, c'.trustCache, owner)
  {
    SubcommandNamesExclusive(args[0]);
    var before := LoadedList(c.trustCache, sender.uniqueId);
    var toTrust := Propose(args, resolve);
    AppendAbsentMembers(before, toTrust);
    AppendAbsentPrefix(before, toTrust);
    AppendAbsentFresh(before, toTrust);
    AppendAbsentOrder(before, toTrust);
  }

  /** `remove`: exactly one copy of each named UUID leaves the owner's list,
      the rest keep their relative order, and on a duplicate-free list the
      named UUIDs are absent afterwards while every other entry stays. */
  lemma RemoveDeletesNamed(c: Caches, sender: Sender, args: seq<string>, confirm: bool,
                           resolve: string -> OfflinePlayer)
    requires sender.Player? && |args| >= 1 && EqualsIgnoreCase("remove", args[0])
    requires RemovePermission in sender.permissions
    ensures var (c', handled) := Command(c, sender, args, confirm, resolve);
      var owner := sender.uniqueId;
      var before := LoadedList(c.trustCache, owner);
      var named := UniqueIds(args[1..], resolve);
      handled && c'.confirmCache == c.confirmCache && owner in c'.trustCache &&
      var after := c'.trustCache[owner];
      && multiset(after) == multiset(before) - multiset(named)
      && IsSubsequence(after, before)
      && (NoDup(before) ==> (forall u :: u in named ==> u !in after) &&
                            (forall u :: u in before && u !in named ==> u in after))
      && SameExceptFor(c.trustCache, c'.trustCache, owner)
  {
    SubcommandNamesExclusive(args[0]);
    var before := LoadedList(c.trustCache, sender.uniqueId);
    var named := UniqueIds(args[1..], resolve);
    RemoveEachMultiset(before, named);
    RemoveEachSubsequence(before, named);
    if NoDup(before) {
      RemoveEachNoDup(before, named);
    }
  }

  /** `list` changes no list: it only creates an empty entry for a target
      that had none, and leaves the pending lists alone. */
  lemma ListKeepsLists(c: Caches, sender: Sender, args: seq<string>, confirm: bool,
                       resolve: string -> OfflinePlayer)
    requires sender.Player? && |args| >= 1 && EqualsIgnoreCase("list", args[0])
    requires ListPermission in sender.permissions
    ensures var (c', handled) := Command(c, sender, args, confirm, resolve);
      var target := ListTarget(sender, args, resolve);
      handled && c'.confirmCache == c.confirmCache &&
      c'.trustCache.Keys == c.trustCache.Keys + {target} &&
      (forall k :: k in c.trustCache ==> c'.trustCache[k] == c.trustCache[k]) &&
      (target !in c.trustCache ==> c'.trustCache[target] == [])
  {
  }

  /** A command changes at most the sender's own entries: no other owner's
      trust list changes content and no other owner's pending list changes. */
  lemma CommandTouchesOnlySender(c: Caches, sender: Sender, args: seq<string>, confirm: bool,
                                 resolve: string -> OfflinePlayer)
    requires sender.Player?
    ensures var c' := Command(c, sender, args, confirm, resolve).0;
      SameExceptFor(c.trustCache, c'.trustCache, sender.uniqueId) &&
      SameExceptFor(c.confirmCache, c'.confirmCache, sender.uniqueId) &&
      forall k :: k in c'.confirmCache ==> k in c.confirmCache || k == sender.uniqueId
  {
  }

  /** The no-duplicates invariant: if every trust list is duplicate-free
      before a command, every one is afterwards, even when the candidate
      list of an `add` or the pending list of a `confirm` holds repeats. */
  lemma CommandPreservesNoDup(c: Caches, sender: Sender, args: seq<string>, confirm: bool,
                              resolve: string -> OfflinePlayer)
    requires AllNoDup(c.trustCache)
    ensures AllNoDup(Command(c, sender, args, confirm, resolve).0.trustCache)
  {
    if |args| >= 1 && sender.Player? {
      var owner := sender.uniqueId;
      var before := LoadedList(c.trustCache, owner);
      assert NoDup(before);
      match Dispatch(sender, args[0])
      case Add =>
        AppendAbsentNoDup(before, Propose(args, resolve));
      case Remove =>
        RemoveEachNoDup(before, UniqueIds(args[1..], resolve));
      case List =>
      case Confirm =>
        if owner in c.confirmCache {
          AppendAbsentNoDup(before, c.confirmCache[owner]);
        }
      case Cancel =>
      case Unrecognised =>
    }
  }

  /** The invariant over any run of commands, from any duplicate-free caches
      (the empty caches of `onEnable` among them). Each command sees its own
      `confirm-action` value and its own view of the players, since both can
      change between commands. */
  lemma {:induction false} RunPreservesNoDup(c: Caches, senders: seq<Sender>, argss: seq<seq<string>>,
                                             confirms: seq<bool>, resolves: seq<string -> OfflinePlayer>)
    requires |senders| == |argss| == |confirms| == |resolves|
    requires AllNoDup(c.trustCache)
    ensures AllNoDup(Run(c, senders, argss, confirms, resolves).trustCache)
    decreases |senders|
  {
    if senders != [] {
      CommandPreservesNoDup(c, senders[0], argss[0], confirms[0], resolves[0]);
      RunPreservesNoDup(Command(c, senders[0], argss[0], confirms[0], resolves[0]).0,
                        senders[1..], argss[1..], confirms[1..], resolves[1..]);
    }
  }

  /** The caches after a sequence of commands, the i-th sent by `senders[i]`
      with arguments `argss[i]`, setting `confirms[i]` and player view
      `resolves[i]`. */
  function Run(c: Caches, senders: seq<Sender>, argss: seq<seq<string>>, confirms: seq<bool>,
               resolves: seq<string -> OfflinePlayer>): Caches
    requires |senders| == |argss| == |confirms| == |resolves|
    decreases |senders|
  {
    if senders == [] then c
    else Run(Command(c, senders[0], argss[0], confirms[0], resolves[0]).0,
             senders[1..], argss[1..], confirms[1..], resolves[1..])
  }
}
