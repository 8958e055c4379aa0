# LWCTrust `/trust` command, modelled in Dafny

LWCTrust is a Bukkit plugin. It lets a player trust other players with their
LWC-protected blocks. Each player manages a trust list through one command,
`/trust`:

- `add <names…>` proposes or adds players;
- `remove <names…>` removes them;
- `list [name]` shows a list;
- `confirm` and `cancel` settle a pending `add`.

The plugin keeps two caches, each a map from an owner's UUID to a list of
UUIDs. `trustCache` holds the trust lists. `confirmCache` holds the adds that
wait for `confirm` when the `confirm-action` setting is on.

This project models three parts of `LWCTrust.java`:

- `onCommand`: the class `Commands.LWCTrust` holds both caches as map
  fields. Its method `OnCommand` updates them step by step through the
  handler's if-chain and loops. It is proved to end in the state that the
  pure function `Commands.Command` gives. The properties of a command are
  proved about that function in `CommandProperties`. So is the invariant
  that no trust list ever holds a duplicate. It holds over any run of
  commands, even when the `confirm-action` setting and the players' status
  change between commands.
- `onTabComplete`: the pure function `TabCompletion.TabComplete`.
- the RGB step of `getMessage`: the method `RgbColors.ExpandRgbCodes` follows
  the source's `while (find()) replaceAll(…)` loop. It is proved equal to
  `RgbColors.ExpandRgb`, a single left-to-right rewrite, and
  `ExpandRgb`'s own properties are proved: it leaves no match behind and it
  is idempotent.

Two behaviours of the handler are kept as written and pinned down by lemmas:

- The candidate list of `add` is built from every argument, the word `add`
  itself included. A player named like the subcommand word is therefore
  proposed (`TrustLists.ProposeIncludesSubcommandWord`).
- The guard `hasPlayedBefore() || isOnline() && !contains(uuid)` binds as
  `hasPlayedBefore() || (isOnline() && !contains(uuid))`. A player who has
  played before is therefore proposed once per mention
  (`TrustLists.ProposeRepeatsVeterans`). Neither repeat reaches a trust list,
  because the appends skip UUIDs already present
  (`CommandProperties.CommandPreservesNoDup`).

Inputs that come from the server are parameters:

- `Bukkit.getOfflinePlayer(name)` is a function `resolve` from names to
  `OfflinePlayer` values (UUID, has played before, is online);
- the sender's permission nodes are a set in the `Sender` value;
- the `confirm-action` setting is a boolean.

`equalsIgnoreCase` follows Java's character test (equal, equal upper case,
or equal lower case of the upper case). Its case mapping covers ASCII and
the four non-ASCII characters that Java folds onto ASCII letters.

## Model

| member | source | states |
|---|---|---|
| Commands.LWCTrust.constructor | src/main/java/org/popcraft/lwctrust/LWCTrust.java:60-61 | Both caches start empty. |
| Commands.LWCTrust.OnCommand | src/main/java/org/popcraft/lwctrust/LWCTrust.java:76-176 | The caches afterwards and the returned flag are exactly those of `Command` applied to the caches before. |
| Commands.LWCTrust.Load | src/main/java/org/popcraft/lwctrust/LWCTrust.java:115 | The owner gets an entry (an empty list if none existed); no list changes, and the pending cache is untouched. |
| Commands.LWCTrust.Candidates | src/main/java/org/popcraft/lwctrust/LWCTrust.java:86-93 | The loop over all arguments builds exactly the list `Propose(args, resolve)`. |
| Commands.LWCTrust.TrustAll | src/main/java/org/popcraft/lwctrust/LWCTrust.java:101-110 | The owner's list becomes `AppendAbsent(old list, uuids)`; no other entry and no pending list changes. |
| Commands.LWCTrust.RemoveAll | src/main/java/org/popcraft/lwctrust/LWCTrust.java:115-124 | The owner's list becomes the old one with `remove` applied for each UUID named after the first argument; nothing else changes. |
| Commands.Loaded | src/main/java/org/popcraft/lwctrust/LWCTrust.java:132 | `load` adds exactly the owner's key, with an empty list when it was missing, and changes no existing list. |
| CommandProperties.SubcommandNamesExclusive | src/main/java/org/popcraft/lwctrust/LWCTrust.java:84-163 | No word matches two subcommand names ignoring case, so the order of the if-chain only matters through the permission checks. |
| CommandProperties.UnhandledIffRejected | src/main/java/org/popcraft/lwctrust/LWCTrust.java:78-175 | The handler returns false if and only if there is no argument, the sender is not a player, or the word names no subcommand the player may use; in that case neither cache changes. |
| CommandProperties.AddWithConfirmationProposes | src/main/java/org/popcraft/lwctrust/LWCTrust.java:84-97 | With confirmation on, the owner's pending list becomes exactly the candidate list `Propose(args, resolve)`, with its order and repeats. So it holds a UUID if and only if some argument (the first included) resolves to it and to a player who has played before or is online. No trust list and no other pending list changes. |
| CommandProperties.DirectAddTrustsCandidates | src/main/java/org/popcraft/lwctrust/LWCTrust.java:98-111 | With confirmation off, the trust list afterwards holds exactly the old entries and the candidates; the old list stays as a prefix, each appended UUID was absent, the appended UUIDs keep the order of their first occurrence in the candidate list, and other owners are untouched. |
| CommandProperties.RemoveDeletesNamed | src/main/java/org/popcraft/lwctrust/LWCTrust.java:113-125 | The owner's list loses exactly one copy of each named UUID (multiset difference) and keeps its order. On a duplicate-free list the named UUIDs are gone and every other entry stays. |
| CommandProperties.ListKeepsLists | src/main/java/org/popcraft/lwctrust/LWCTrust.java:126-132 | `list` changes no list and no pending entry; it only creates an empty entry for a target that had none. |
| CommandProperties.ConfirmMergesPending | src/main/java/org/popcraft/lwctrust/LWCTrust.java:144-159 | Every pending UUID ends up trusted and nothing else is added. The old list stays as a prefix. The appended UUIDs are new, come once each and keep the order of the pending list. The pending entry is removed and other owners are untouched. |
| CommandProperties.ConfirmOrCancelWithoutPending | src/main/java/org/popcraft/lwctrust/LWCTrust.java:160-170 | `confirm` or `cancel` with nothing pending returns true and changes neither cache. |
| CommandProperties.CancelDropsOwnPending | src/main/java/org/popcraft/lwctrust/LWCTrust.java:163-167 | `cancel` removes exactly the sender's pending entry and leaves all trust lists alone. |
| CommandProperties.CommandTouchesOnlySender | src/main/java/org/popcraft/lwctrust/LWCTrust.java:76-176 | A command changes no other owner's trust list or pending list, and it adds pending entries only for the sender. |
| CommandProperties.CommandPreservesNoDup | src/main/java/org/popcraft/lwctrust/LWCTrust.java:99-104 | If every trust list is duplicate-free before a command, every list is afterwards, even when the candidate or pending list holds repeats. |
| CommandProperties.RunPreservesNoDup | src/main/java/org/popcraft/lwctrust/LWCTrust.java:76-176 | Starting from duplicate-free caches (the empty ones included), the no-duplicates invariant holds after any sequence of commands. Each command has its own sender, arguments, `confirm-action` value and player view. |
| TrustLists.ProposeMembers | src/main/java/org/popcraft/lwctrust/LWCTrust.java:86-93 | A UUID is a candidate if and only if some argument, the subcommand word included, resolves to it and to a player who has played before or is online. |
| TrustLists.ProposeLength | src/main/java/org/popcraft/lwctrust/LWCTrust.java:87-92 | The candidate list has at most one entry per argument. |
| TrustLists.ProposeNoDupWithoutVeterans | src/main/java/org/popcraft/lwctrust/LWCTrust.java:89-90 | When no argument resolves to a player who has played before, the containment test keeps the candidate list duplicate-free. |
| TrustLists.ProposeAllVeterans | src/main/java/org/popcraft/lwctrust/LWCTrust.java:87-92 | When every argument resolves to a player who has played before, the candidate list is the UUIDs of all the arguments, in order and with repeats, the subcommand word included. |
| TrustLists.ProposeRepeatsVeterans | src/main/java/org/popcraft/lwctrust/LWCTrust.java:89-91 | By the guard's precedence, `add Bob Bob` for a player who has played before yields Bob twice. |
| TrustLists.ProposeIncludesSubcommandWord | src/main/java/org/popcraft/lwctrust/LWCTrust.java:87 | The word `add` is itself resolved: a known player called "add" is proposed ahead of the named one. |
| TrustLists.AppendAbsentPrefix | src/main/java/org/popcraft/lwctrust/LWCTrust.java:101-104 | The guarded appends keep the old list untouched as a prefix. |
| TrustLists.AppendAbsentMembers | src/main/java/org/popcraft/lwctrust/LWCTrust.java:101-104 | Afterwards the list holds a UUID if and only if it was there before or was appended. |
| TrustLists.AppendAbsentFresh | src/main/java/org/popcraft/lwctrust/LWCTrust.java:102-103 | Each appended UUID was absent from the list when it was appended. |
| TrustLists.AppendAbsentNoDup | src/main/java/org/popcraft/lwctrust/LWCTrust.java:101-104 | A duplicate-free list stays duplicate-free. |
| TrustLists.AppendAbsentOrder | src/main/java/org/popcraft/lwctrust/LWCTrust.java:148-151 | The appended UUIDs come from the list being merged, in the order of their first occurrence there. |
| TrustLists.RemoveFirstDeletesFirst | src/main/java/org/popcraft/lwctrust/LWCTrust.java:118 | `List.remove(Object)` deletes the first occurrence and keeps everything around it; without an occurrence the list is unchanged. |
| TrustLists.RemoveFirstMultiset | src/main/java/org/popcraft/lwctrust/LWCTrust.java:118 | One removal takes away exactly one copy, if there is one. |
| TrustLists.RemoveFirstSubsequence | src/main/java/org/popcraft/lwctrust/LWCTrust.java:118 | One removal leaves a subsequence of the list. |
| TrustLists.RemoveEachMultiset | src/main/java/org/popcraft/lwctrust/LWCTrust.java:116-118 | The removals take away one copy of each named UUID (multiset difference). |
| TrustLists.RemoveEachSubsequence | src/main/java/org/popcraft/lwctrust/LWCTrust.java:116-118 | The remaining entries keep their relative order. |
| TrustLists.RemoveEachNoDup | src/main/java/org/popcraft/lwctrust/LWCTrust.java:116-118 | On a duplicate-free list the result is duplicate-free, holds none of the named UUIDs and keeps every other entry. |
| JavaStrings.LetterMatches | src/main/java/org/popcraft/lwctrust/LWCTrust.java:84 | Ignoring case, a lower-case ASCII letter matches exactly: itself, its capital, and the non-ASCII characters Java folds onto it. |
| JavaStrings.MixedCaseMatches | src/main/java/org/popcraft/lwctrust/LWCTrust.java:84 | Any mix of lower- and upper-case letters of a subcommand name is recognised as that name. |
| TabCompletion.FilterPrefix | src/main/java/org/popcraft/lwctrust/LWCTrust.java:197 | The filtered list is a subsequence of the candidates. It keeps every copy of each candidate that starts with the prefix and no other candidate. |
| TabCompletion.CompletionsInOrder | src/main/java/org/popcraft/lwctrust/LWCTrust.java:184-196 | The candidate list respects the fixed order add, remove, list, confirm, cancel. |
| TabCompletion.CompletionsMembers | src/main/java/org/popcraft/lwctrust/LWCTrust.java:184-196 | Each of add, remove and list is a candidate if and only if the player holds its permission; confirm and cancel are candidates if and only if an add is pending. |
| TabCompletion.ConsoleGetsNothing | src/main/java/org/popcraft/lwctrust/LWCTrust.java:180-182 | A sender that is not a player gets the empty list. |
| TabCompletion.OneArgumentCompletions | src/main/java/org/popcraft/lwctrust/LWCTrust.java:183-197 | With one argument the result is a duplicate-free list in subcommand order. Each name is in it if and only if it starts with the argument and the player may use it (permission, or a pending add for confirm and cancel). |
| TabCompletion.LaterArgumentCompletions | src/main/java/org/popcraft/lwctrust/LWCTrust.java:198-202 | With zero or several arguments the server default (`null`) is returned if and only if there are several and the first is exactly add, remove or list; otherwise the empty list. |
| RgbColors.Find | src/main/java/org/popcraft/lwctrust/LWCTrust.java:211-212 | `find()` returns the first match at or after the matcher's position, or none if there is no later match. |
| RgbColors.ExpandRgbCodes | src/main/java/org/popcraft/lwctrust/LWCTrust.java:211-222 | The `find`/`replaceAll` loop ends with exactly the one-pass rewrite `ExpandRgb` of the message. |
| RgbColors.LoopStep | src/main/java/org/popcraft/lwctrust/LWCTrust.java:212-221 | One loop pass keeps the invariant: `replaceAll` of the match found rewrites every occurrence of its text, and every match before its end has now been handled. |
| RgbColors.ReplaceAllExtends | src/main/java/org/popcraft/lwctrust/LWCTrust.java:221 | `replaceAll` with a match text on a partly rewritten message rewrites exactly the further matches with that text. |
| RgbColors.PartialExpandComplete | src/main/java/org/popcraft/lwctrust/LWCTrust.java:212-222 | Once the text of every match has been handled, the partial rewrite is the full rewrite. |
| RgbColors.NoOverlap | src/main/java/org/popcraft/lwctrust/LWCTrust.java:205 | No match of `&#` plus six hex digits starts inside another match. |
| RgbColors.NoAmpersandInColor | src/main/java/org/popcraft/lwctrust/LWCTrust.java:214-220 | A colour code contains no `&`, so no later match can start inside it. |
| RgbColors.RgbColorDigits | src/main/java/org/popcraft/lwctrust/LWCTrust.java:214-220 | The colour code is 14 characters long: `§x`, then `§` before each of the six digits, in order and in their original case. |
| RgbColors.ExpandRgbNoMatch | src/main/java/org/popcraft/lwctrust/LWCTrust.java:211-222 | A message with no match is returned unchanged. |
| RgbColors.ExpandRgbAppend | src/main/java/org/popcraft/lwctrust/LWCTrust.java:211-222 | Text before an `&` is rewritten independently of what follows. |
| RgbColors.ExpandRgbAroundMatch | src/main/java/org/popcraft/lwctrust/LWCTrust.java:213-221 | Each match becomes its colour code, and the text on both sides is rewritten independently. |
| RgbColors.ExpandRgbLeavesNoMatch | src/main/java/org/popcraft/lwctrust/LWCTrust.java:211-222 | No match is left in the rewritten message. |
| RgbColors.ExpandRgbIdempotent | src/main/java/org/popcraft/lwctrust/LWCTrust.java:211-222 | Rewriting a second time changes nothing. |

## Left out

- `onEnable` is left out: reading the configuration, choosing the locale
  bundle, registering with LWC and metrics. The caches are modelled only as
  they are created there, empty.
- `TrustCache` internals are left out: capacity, eviction and the on-disk
  format. `load` is modelled as "the cached list, or a new empty one".
  A list stored on disk but not cached is therefore read as empty, and
  `save` changes no state.
- Messages are left out: every `sendMessage`, the notifications to other
  players, the player names in `list` output, and all of `getMessage`
  except the RGB loop. That means the locale lookup, `String.format` and
  `ChatColor.translateAlternateColorCodes`, which is Bukkit code outside
  this repository.
- `Bukkit.getOfflinePlayer`, `Bukkit.getPlayer`, `hasPermission` and the
  `confirm-action` setting are inputs, not computations.
- JavaStrings.EqualsIgnoreCase: Java's full Unicode case mapping is reduced
  to ASCII plus U+0130, U+0131, U+017F and U+212A. Every other character
  maps to itself, which changes no comparison with an all-ASCII subcommand
  name.
- Java strings are UTF-16 code units; here they are Dafny characters.
  Surrogate pairs are not modelled.
- RgbColors.ReplaceAll: `String.replaceAll` treats its first argument as a
  regular expression and its second as a template. The model replaces
  literally, which agrees with Java only because a match text and its colour
  code contain no regex metacharacters, `$` or backslash.
- Concurrency is not modelled: each command runs to completion before the
  next.
