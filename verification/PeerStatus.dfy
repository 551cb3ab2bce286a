/** Peer availability and how it ages. Times are clock readings in nanoseconds. */
module PeerStatus {
  import opened Bytes

  const ONLINE_TIMEOUT: int := 30 * SECOND
  const OFFLINE_TIMEOUT: int := ONLINE_TIMEOUT + 300 * SECOND

  datatype PeerStatus =
    | Online(lastSeen: int)
    | Away(lastSeen: int)
    | Offline(everSeen: Option<int>)
    | Blocked
  {
    function LastSeen(): Option<int> {
      match this
      case Online(t) => Some(t)
      case Away(t) => Some(t)
      case Offline(t) => t
      case Blocked => None
    }
  }

  function Refresh(s: PeerStatus, now: int): PeerStatus {
    match s
    case Online(t) => if now - t > ONLINE_TIMEOUT then Away(t) else s
    case Away(t) => if now - t > OFFLINE_TIMEOUT then Offline(Some(t)) else s
    case _ => s
  }

  function RefreshAll(s: PeerStatus, schedule: seq<int>): PeerStatus
    decreases |schedule|
  {
    if schedule == [] then s else RefreshAll(Refresh(s, schedule[0]), schedule[1..])
  }

  /** What two refreshes at `now` come to: the status read off the age alone. */
  function Settled(s: PeerStatus, now: int): PeerStatus {
    match s
    case Online(t) =>
      if now - t > OFFLINE_TIMEOUT then Offline(Some(t)) else if now - t > ONLINE_TIMEOUT then Away(t) else s
    case Away(t) => if now - t > OFFLINE_TIMEOUT then Offline(Some(t)) else s
    case _ => s
  }

  /**
   However a status was refreshed before, at any times up to `now` and in any order, refreshing it twice at `now` gives
   what refreshing the original twice gives, and a third refresh changes nothing. The last-seen time is
   kept throughout, and a blocked peer stays blocked.
   */
  lemma {:induction false} EarlierRefreshesDoNotMatter(s: PeerStatus, schedule: seq<int>, now: int)
    requires forall i :: 0 <= i < |schedule| ==> schedule[i] <= now
    ensures var s' := RefreshAll(s, schedule);
            && Refresh(Refresh(s', now), now) == Refresh(Refresh(s, now), now) == Settled(s, now)
            && Refresh(Settled(s, now), now) == Settled(s, now)
            && s'.LastSeen() == s.LastSeen() == Settled(s, now).LastSeen()
            && (s'.Blocked? <==> s.Blocked?)
    decreases |schedule|
  {
    if schedule != [] {
      EarlierRefreshesDoNotMatter(Refresh(s, schedule[0]), schedule[1..], now);
    }
  }

  /** One refresh moves a status by at most one step, exactly when it has aged past that step's limit. */
  lemma OneRefreshIsOneStep(s: PeerStatus, now: int)
    ensures s.Online? ==> Refresh(s, now) == if now - s.lastSeen > 30 * SECOND then Away(s.lastSeen) else s
    ensures s.Away? ==> Refresh(s, now) == if now - s.lastSeen > 330 * SECOND then Offline(Some(s.lastSeen)) else s
    ensures s.Offline? || s.Blocked? ==> Refresh(s, now) == s
    ensures Refresh(s, now).Offline? ==> s.Away? || s.Offline?
  {
  }
}
