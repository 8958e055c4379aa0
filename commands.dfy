/** The `/trust` command handler: five subcommands over two caches, each a map
    from an owner's UUID to a list of UUIDs. `trustCache` holds the trust
    lists, `confirmCache` the adds waiting for `confirm`.

    The pure functions give the effect of one command on both caches; the
    class `LWCTrust` performs the same command step by step, updating its
    cache fields the way the handler updates the cached lists in place, and
    is proved to end in the state the functions describe. */
module Commands {
  import opened JavaStrings
  import opened Players
  import opened TrustLists

  type TrustMap = map<Uuid, seq<Uuid>>

  /** The state the handler reads and writes. */
  datatype Caches = Caches(trustCache: TrustMap, confirmCache: TrustMap)

  /** `cache.load(owner)`: the cached list, or a new empty one. */
  function LoadedList(cache: TrustMap, owner: Uuid): seq<Uuid> {
    if owner in cache then cache[owner] else []
  }

  /** The cache after `cache.load(owner)`: an entry for `owner` exists and no
      list changed. */
  function Loaded(cache: TrustMap, owner: Uuid): (r: TrustMap)
    ensures r.Keys == cache.Keys + {owner}
    ensures forall k :: k in cache ==> r[k] == cache[k]
    ensures owner !in cache ==> r[owner] == []
  {
    cache[owner := LoadedList(cache, owner)]
  }

  /** Which branch of the handler's if-chain runs for the first argument. */
  datatype Subcommand = Add | Remove | List | Confirm | Cancel | Unrecognised

  /** The if-chain of the handler: `add`, `remove` and `list` need their
      permission node, `confirm` and `cancel` none; a word that passes no test
      is unrecognised. */
  function Dispatch(player: Sender, word: string): Subcommand
    requires player.Player?
  {
    if EqualsIgnoreCase("add", word) && HasPermission(player, AddPermission) then Add
    else if EqualsIgnoreCase("remove", word) && HasPermission(player, RemovePermission) then Remove
    else if EqualsIgnoreCase("list", word) && HasPermission(player, ListPermission) then List
    else if EqualsIgnoreCase("confirm", word) then Confirm
    else if EqualsIgnoreCase("cancel", word) then Cancel
    else Unrecognised
  }

  /** `add`: with confirmation on, the candidate list replaces the owner's
      pending list; otherwise its absent entries are appended to the owner's
      trust list. */
  function AddCommand(c: Caches, owner: Uuid, args: seq<string>, confirm: bool,
                      resolve: string -> OfflinePlayer): Caches
  {
    var toTrust := Propose(args, resolve);
    if confirm then c.(confirmCache := c.confirmCache[owner := toTrust])
    else c.(trustCache := c.trustCache[owner := AppendAbsent(LoadedList(c.trustCache, owner), toTrust)])
  }

  /** `remove`: the first occurrence of each named UUID leaves the owner's
      trust list. */
  function RemoveCommand(c: Caches, owner: Uuid, args: seq<string>,
                         resolve: string -> OfflinePlayer): Caches
    requires |args| >= 1
  {
    c.(trustCache := c.trustCache[owner := RemoveEach(LoadedList(c.trustCache, owner), UniqueIds(args[1..], resolve))])
  }

  /** Whose list `list` shows: the named player's with a second argument and
      the `list.others` node, the sender's own otherwise. */
  function ListTarget(player: Sender, args: seq<string>, resolve: string -> OfflinePlayer): Uuid
    requires player.Player?
  {
    if |args| > 1 && HasPermission(player, ListOthersPermission) then resolve(args[1]).uniqueId
    else player.uniqueId
  }

  /** `list`: only loads the target's list. */
  function ListCommand(c: Caches, target: Uuid): Caches {
    c.(trustCache := Loaded(c.trustCache, target))
  }

  /** `confirm`: a pending list is merged into the trust list and dropped. */
  function ConfirmCommand(c: Caches, owner: Uuid): Caches {
    if owner in c.confirmCache then
      Caches(c.trustCache[owner := AppendAbsent(LoadedList(c.trustCache, owner), c.confirmCache[owner])],
             c.confirmCache - {owner})
    else c
  }

  /** `cancel`: a pending list is dropped. */
  function CancelCommand(c: Caches, owner: Uuid): Caches {
    if owner in c.confirmCache then c.(confirmCache := c.confirmCache - {owner}) else c
  }

  /** `onCommand`: the caches afterwards and the value returned. */
  function Command(c: Caches, sender: Sender, args: seq<string>, confirm: bool,
                   resolve: string -> OfflinePlayer): (Caches, bool)
  {
    if |args| < 1 || !sender.Player? then (c, false)
    else
      var owner := sender.uniqueId;
      match Dispatch(sender, args[0])
      case Add => (AddCommand(c, owner, args, confirm, resolve), true)
      case Remove => (RemoveCommand(c, owner, args, resolve), true)
      case List => (ListCommand(c, ListTarget(sender, args, resolve)), true)
      case Confirm => (ConfirmCommand(c, owner), true)
      case Cancel => (CancelCommand(c, owner), true)
      case Unrecognised => (c, false)
  }

  /** The plugin object: its two caches, changed in place by `OnCommand`. */
  class LWCTrust {
    var trustCache: TrustMap
    var confirmCache: TrustMap

    /** The caches as `onEnable` creates them: empty. */
    constructor ()
      ensures trustCache == map[] && confirmCache == map[]
    {
      trustCache := map[];
      confirmCache := map[];
    }

    function State(): Caches
      reads this
    {
      Caches(trustCache, confirmCache)
    }

    /** `onCommand(sender, command, label, args)`; `confirm` is the
        `confirm-action` setting and `resolve` stands for
        `Bukkit.getOfflinePlayer`. */
    method OnCommand(sender: Sender, args: seq<string>, confirm: bool,
                     resolve: string -> OfflinePlayer) returns (handled: bool)
      modifies this
      ensures (State(), handled) == Command(old(State()), sender, args, confirm, resolve)
    {
      if |args| < 1 || !sender.Player? {
        return false;
      }
      ghost var before := State();
      var owner := sender.uniqueId;
      var word := args[0];
      if EqualsIgnoreCase("add", word) && HasPermission(sender, AddPermission) {
        var toTrust := Candidates(args, resolve);
        if confirm {
          confirmCache := confirmCache[owner := toTrust];
        } else {
          Load(owner);
          TrustAll(owner, toTrust);
          // trustCache.save(owner): writes the list to disk; the map is unchanged
        }
        assert State() == AddCommand(before, owner, args, confirm, resolve);
      } else if EqualsIgnoreCase("remove", word) && HasPermission(sender, RemovePermission) {
        Load(owner);
        RemoveAll(owner, args, resolve);
        // trustCache.save(owner)
        assert State() == RemoveCommand(before, owner, args, resolve);
      } else if EqualsIgnoreCase("list", word) && HasPermission(sender, ListPermission) {
        var target := if |args| > 1 && HasPermission(sender, ListOthersPermission)
                      then resolve(args[1]).uniqueId else owner;
        Load(target);
        assert State() == ListCommand(before, ListTarget(sender, args, resolve));
      } else if EqualsIgnoreCase("confirm", word) {
        if owner in confirmCache {
          Load(owner);
          TrustAll(owner, confirmCache[owner]);
          confirmCache := confirmCache - {owner};
          // trustCache.save(owner)
        }
        assert State() == ConfirmCommand(before, owner);
      } else if EqualsIgnoreCase("cancel", word) {
        if owner in confirmCache {
          confirmCache := confirmCache - {owner};
        }
      } else {
        return false;
      }
      return true;
    }

    /** `trustCache.load(owner)`. */
    method Load(owner: Uuid)
      modifies this
      ensures trustCache == Loaded(old(trustCache), owner)
      ensures confirmCache == old(confirmCache)
    {
      if owner !in trustCache {
        trustCache := trustCache[owner := []];
      }
    }

    /** The `forEach` that builds the candidate list `toTrust` of an `add`. */
    method Candidates(args: seq<string>, resolve: string -> OfflinePlayer) returns (toTrust: seq<Uuid>)
      ensures toTrust == Propose(args, resolve)
    {
      toTrust := [];
      var i := 0;
      while i < |args|
        invariant 0 <= i <= |args|
        invariant toTrust == Propose(args[..i], resolve)
      {
        var p := resolve(args[i]);
        assert args[..i + 1][..i] == args[..i];
        if p.hasPlayedBefore || (p.isOnline && p.uniqueId !in toTrust) {
          toTrust := toTrust + [p.uniqueId];
        }
        i := i + 1;
      }
      assert args[..|args|] == args;
    }

    /** The `forEach` of a direct `add` and of `confirm`: each UUID not yet
        in the owner's loaded trust list is appended to it. */
    method TrustAll(owner: Uuid, uuids: seq<Uuid>)
      requires owner in trustCache
      modifies this
      ensures trustCache == old(trustCache)[owner := AppendAbsent(old(trustCache)[owner], uuids)]
      ensures confirmCache == old(confirmCache)
    {
      var j := 0;
      while j < |uuids|
        invariant 0 <= j <= |uuids|
        invariant owner in trustCache
        invariant trustCache == old(trustCache)[owner := trustCache[owner]]
        invariant AppendAbsent(trustCache[owner], uuids[j..]) == AppendAbsent(old(trustCache)[owner], uuids)
        invariant confirmCache == old(confirmCache)
      {
        var trusted := trustCache[owner];
        assert uuids[j..][1..] == uuids[j + 1..];
        if uuids[j] !in trusted {
          trustCache := trustCache[owner := trusted + [uuids[j]]];
        }
        j := j + 1;
      }
    }

    /** The `forEach` of `remove` over `args[1..]`: the first occurrence of
        each named UUID leaves the owner's loaded trust list. */
    method RemoveAll(owner: Uuid, args: seq<string>, resolve: string -> OfflinePlayer)
      requires owner in trustCache && |args| >= 1
      modifies this
      ensures trustCache == old(trustCache)[owner := RemoveEach(old(trustCache)[owner], UniqueIds(args[1..], resolve))]
      ensures confirmCache == old(confirmCache)
    {
      ghost var ids := UniqueIds(args[1..], resolve);
      var j := 1;
      while j < |args|
        invariant 1 <= j <= |args|
        invariant owner in trustCache
        invariant trustCache == old(trustCache)[owner := trustCache[owner]]
        invariant RemoveEach(trustCache[owner], ids[j - 1..]) == RemoveEach(old(trustCache)[owner], ids)
        invariant confirmCache == old(confirmCache)
      {
        var uuid := resolve(args[j]).uniqueId;
        assert ids[j - 1] == uuid;
        assert ids[j - 1..][1..] == ids[j..];
        trustCache := trustCache[owner := RemoveFirst(trustCache[owner], uuid)];
        j := j + 1;
      }
    }
  }
}
