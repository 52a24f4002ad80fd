/**
 * Queue filters (apps/api/src/utils/queue.ts): which upstream filter field a
 * queue key selects. The enumeration values come from the OpenDota client
 * module, whose definitions are not part of this model: they are a parameter.
 */
module Queue {
  import opened Wrappers

  /** The values the source imports as `GAME_MODE.TURBO`, `LOBBY.RANKED` and `LOBBY.NORMAL`. */
  datatype Codes = Codes(turboGameMode: int, rankedLobby: int, normalLobby: int)

  /** The optional `gameMode` / `lobbyType` fields of the returned object. */
  datatype Filters = Filters(gameMode: Option<int>, lobbyType: Option<int>)

  /**
   * `queueToFilters`: turbo filters on the game mode, ranked and normal on the
   * lobby type, and every other key (the `default` branch, so `all`) on nothing.
   */
  function QueueToFilters(queue: string, codes: Codes): (f: Filters)
    ensures f.gameMode.Some? <==> queue == "turbo"
    ensures f.lobbyType.Some? <==> queue == "ranked" || queue == "normal"
    ensures f.gameMode.Some? ==> f.gameMode.value == codes.turboGameMode
    ensures queue == "ranked" ==> f.lobbyType == Some(codes.rankedLobby)
    ensures queue == "normal" ==> f.lobbyType == Some(codes.normalLobby)
  {
    match queue
    case "turbo" => Filters(Some(codes.turboGameMode), None)
    case "ranked" => Filters(None, Some(codes.rankedLobby))
    case "normal" => Filters(None, Some(codes.normalLobby))
    case _ => Filters(None, None)
  }

  /** No queue key filters on both fields at once, and `all` filters on neither. */
  lemma AtMostOneFilter(queue: string, codes: Codes)
    ensures var f := QueueToFilters(queue, codes);
      !(f.gameMode.Some? && f.lobbyType.Some?)
    ensures QueueToFilters("all", codes) == Filters(None, None)
  {
  }
}
