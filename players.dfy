/** The values the command handlers receive from the server: player
    identities, the result of resolving a name, the sender of a command and the
    permission nodes the plugin checks. */
module Players {

  /** `java.util.UUID`: two 64-bit halves; only equality matters here. */
  datatype Uuid = Uuid(mostSigBits: int, leastSigBits: int)

  /** What `Bukkit.getOfflinePlayer(name)` reports about a name. */
  datatype OfflinePlayer = OfflinePlayer(uniqueId: Uuid, hasPlayedBefore: bool, isOnline: bool)

  /** The `CommandSender`: a player, with the permission nodes granted to it,
      or any other sender (the console, a command block). */
  datatype Sender = Console | Player(uniqueId: Uuid, permissions: set<string>)

  const AddPermission: string := "lwctrust.trust.add"
  const RemovePermission: string := "lwctrust.trust.remove"
  const ListPermission: string := "lwctrust.trust.list"
  const ListOthersPermission: string := "lwctrust.trust.list.others"

  /** `player.hasPermission(node)`. */
  predicate HasPermission(player: Sender, node: string)
    requires player.Player?
  {
    node in player.permissions
  }
}
