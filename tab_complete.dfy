/** `onTabComplete` of the `/trust` command: the subcommand names the player
    may use, in a fixed order, that start with what has been typed. */
module TabCompletion {
  import opened Sequences
  import opened JavaStrings
  import opened Players

  /** The value handed back to the server: a list of suggestions, or `null`,
      which makes the server fall back to its own completion (player names). */
  datatype TabResult = Suggestions(words: seq<string>) | ServerDefault

  /** Every subcommand name in the order the completer offers them. */
  const Subcommands: seq<string> := ["add", "remove", "list", "confirm", "cancel"]

  /** The subcommands after which the server completes player names. */
  const NameTakingSubcommands: seq<string> := ["add", "remove", "list"]

  /** `completions.stream().filter(s -> s.startsWith(prefix))`. */
  function FilterPrefix(candidates: seq<string>, prefix: string): (r: seq<string>)
    ensures IsSubsequence(r, candidates)
    ensures forall w :: w in r <==> w in candidates && StartsWith(w, prefix)
    ensures forall w :: multiset(r)[w] == (if StartsWith(w, prefix) then multiset(candidates)[w] else 0)
    decreases |candidates|
  {
    if candidates == [] then []
    else
      var rest := FilterPrefix(candidates[1..], prefix);
      assert forall w :: w in candidates <==> w == candidates[0] || w in candidates[1..];
      assert candidates == [candidates[0]] + candidates[1..];
      if StartsWith(candidates[0], prefix) then
        assert ([candidates[0]] + rest)[1..] == rest;
        [candidates[0]] + rest
      else
        rest
  }

  /** The candidate list built by the guarded appends: the names whose
      permission the player holds, then `confirm` and `cancel` when the
      player has a pending add. */
  function Completions(player: Sender, hasPending: bool): seq<string>
    requires player.Player?
  {
    (if HasPermission(player, AddPermission) then ["add"] else []) +
    (if HasPermission(player, RemovePermission) then ["remove"] else []) +
    (if HasPermission(player, ListPermission) then ["list"] else []) +
    (if hasPending then ["confirm", "cancel"] else [])
  }

  /** `onTabComplete(sender, command, alias, args)`; `confirmCache` is the
      plugin's pending-add cache. */
  function TabComplete(sender: Sender, args: seq<string>, confirmCache: map<Uuid, seq<Uuid>>): TabResult {
    if !sender.Player? then Suggestions([])
    else if |args| == 1 then
      Suggestions(FilterPrefix(Completions(sender, sender.uniqueId in confirmCache), args[0]))
    else if |args| > 1 && args[0] in NameTakingSubcommands then ServerDefault
    else Suggestions([])
  }

  /** The candidate list never leaves the fixed order of the subcommands. */
  lemma CompletionsInOrder(player: Sender, hasPending: bool)
    requires player.Player?
    ensures IsSubsequence(Completions(player, hasPending), Subcommands)
  {
  }

  /** The five names are pairwise different. */
  lemma SubcommandsDistinct()
    ensures NoDup(Subcommands)
  {
  }

  /** Which names the candidate list holds. */
  lemma CompletionsMembers(player: Sender, hasPending: bool)
    requires player.Player?
    ensures var cands := Completions(player, hasPending);
      && ("add" in cands <==> AddPermission in player.permissions)
      && ("remove" in cands <==> RemovePermission in player.permissions)
      && ("list" in cands <==> ListPermission in player.permissions)
      && ("confirm" in cands <==> hasPending)
      && ("cancel" in cands <==> hasPending)
  {
  }

  /** A non-player is offered nothing. */
  lemma ConsoleGetsNothing(args: seq<string>, confirmCache: map<Uuid, seq<Uuid>>)
    ensures TabComplete(Console, args, confirmCache) == Suggestions([])
  {
  }

  /** With one argument the player is offered, in the fixed subcommand order,
      exactly the subcommands that start with it and that the player may use;
      `confirm` and `cancel` only with a pending add. */
  lemma OneArgumentCompletions(player: Sender, args: seq<string>, confirmCache: map<Uuid, seq<Uuid>>)
    requires player.Player? && |args| == 1
    ensures var r := TabComplete(player, args, confirmCache);
      var pending := player.uniqueId in confirmCache;
      && r.Suggestions?
      && IsSubsequence(r.words, Subcommands)
      && NoDup(r.words)
      && (forall w :: w in r.words ==> StartsWith(w, args[0]))
      && ("add" in r.words <==> AddPermission in player.permissions && StartsWith("add", args[0]))
      && ("remove" in r.words <==> RemovePermission in player.permissions && StartsWith("remove", args[0]))
      && ("list" in r.words <==> ListPermission in player.permissions && StartsWith("list", args[0]))
      && ("confirm" in r.words <==> pending && StartsWith("confirm", args[0]))
      && ("cancel" in r.words <==> pending && StartsWith("cancel", args[0]))
  {
    var pending := player.uniqueId in confirmCache;
    var cands := Completions(player, pending);
    var r := FilterPrefix(cands, args[0]);
    assert TabComplete(player, args, confirmCache) == Suggestions(r);
    CompletionsInOrder(player, pending);
    CompletionsMembers(player, pending);
    SubsequenceTrans(r, cands, Subcommands);
    SubcommandsDistinct();
    SubsequenceNoDup(r, Subcommands);
  }

  /** With more than one argument, the server's own completion is used after
      `add`, `remove` and `list` (spelled exactly so), and nothing is offered
      otherwise; with no argument nothing is offered either. */
  lemma LaterArgumentCompletions(player: Sender, args: seq<string>, confirmCache: map<Uuid, seq<Uuid>>)
    requires player.Player? && |args| != 1
    ensures TabComplete(player, args, confirmCache) == ServerDefault <==>
      |args| > 1 && (args[0] == "add" || args[0] == "remove" || args[0] == "list")
    ensures TabComplete(player, args, confirmCache) != ServerDefault ==>
      TabComplete(player, args, confirmCache) == Suggestions([])
  {
  }
}
