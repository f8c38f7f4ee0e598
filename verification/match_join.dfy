/**
 * Slot resolution: which of the two player positions a joining name gets.
 *
 * Two rules exist in the server.  `ClaimSlot` is the fill-then-reject rule
 * that both the HTTP join (backend/controllers/matchController.js) and the
 * socket join (backend/sockets/matchSocket.js) apply.  `ResolveJoinSide` and
 * `GetJoinBlockReason` (backend/utils/matchJoin.js) add an idle-slot takeover
 * on top of it; no live handler calls them.
 */
module MatchJoin {
  import opened Common
  import opened Durable
  import opened RuntimeStore

  // ---------------------------------------------------------------------
  // The fill-then-reject rule
  // ---------------------------------------------------------------------

  /**
   * A returning name gets its own slot back; a new name takes the first
   * vacant slot (null or empty), player 1 before player 2; with both slots
   * held by others the join is refused (`None`).  The returned record is the
   * match after binding.
   */
  function ClaimSlot(m: MatchRecord, name: string): (r: Option<(Side, MatchRecord)>)
    ensures r.None? <==> m.player1 != Some(name) && m.player2 != Some(name) && Truthy(m.player1) && Truthy(m.player2)
    ensures r.Some? ==> r.value.1.Player(r.value.0) == Some(name)
    ensures r.Some? ==> r.value.1.(player1 := m.player1, player2 := m.player2) == m
    ensures r.Some? ==> r.value.1.Player(r.value.0.Opposite()) == m.Player(r.value.0.Opposite())
    ensures r.Some? && m.Player(r.value.0) != Some(name) ==> !Truthy(m.Player(r.value.0))
    ensures r.Some? && r.value.0 == Player2 && m.player2 != Some(name) ==> Truthy(m.player1)
    ensures m.player1 == Some(name) ==> r == Some((Player1, m))
    ensures m.player1 != Some(name) && m.player2 == Some(name) ==> r == Some((Player2, m))
  {
    if m.player1 == Some(name) then Some((Player1, m))
    else if m.player2 == Some(name) then Some((Player2, m))
    else if !Truthy(m.player1) then Some((Player1, m.(player1 := Some(name))))
    else if !Truthy(m.player2) then Some((Player2, m.(player2 := Some(name))))
    else None
  }

  /** Claiming again with the same name returns the same slot and changes nothing. */
  lemma ClaimSlotIdempotent(m: MatchRecord, name: string)
    requires ClaimSlot(m, name).Some?
    ensures var (side, m') := ClaimSlot(m, name).value;
      ClaimSlot(m', name) == Some((side, m'))
  {
  }

  // ---------------------------------------------------------------------
  // The takeover-capable rule of matchJoin.js
  // ---------------------------------------------------------------------

  /** Moves recorded in the live session, zero when there is none. */
  function RuntimeMoves(runtime: Option<Session>): int {
    if runtime.None? then 0 else runtime.value.stats1.moves + runtime.value.stats2.moves
  }

  function PersistedMoves(m: MatchRecord): int {
    m.player1Moves + m.player2Moves
  }

  /** `noMatchProgress`: not finished, and no move recorded either durably or live. */
  function NoMatchProgress(m: MatchRecord, runtime: Option<Session>): (free: bool)
    ensures free ==> !Truthy(m.winner) && m.endTime.None?
    ensures runtime.None? ==> free == (!Truthy(m.winner) && m.endTime.None? && PersistedMoves(m) == 0)
  {
    !Truthy(m.winner) && m.endTime.None? && PersistedMoves(m) == 0 && RuntimeMoves(runtime) == 0
  }

  function SlotConnected(runtime: Option<Session>, side: Side): bool {
    runtime.Some? && runtime.value.Connected(side).Some?
  }

  /** Why a join was refused, in the order `getJoinBlockReason` tests them. */
  datatype BlockReason = AlreadyCompleted | AlreadyStarted | BothActive | Full {
    function Message(): string {
      match this
      case AlreadyCompleted => "This match is already completed."
      case AlreadyStarted => "This match has already started and cannot accept a new player."
      case BothActive => "Both player slots are currently active."
      case Full => "Match full."
    }
  }

  /** `getJoinBlockReason`: completed, then started, then both connected, then full. */
  function GetJoinBlockReason(m: MatchRecord, runtime: Option<Session>): (reason: BlockReason)
    ensures (Truthy(m.winner) || m.endTime.Some?) <==> reason == AlreadyCompleted
    ensures reason == AlreadyStarted <==>
      !Truthy(m.winner) && m.endTime.None? && PersistedMoves(m) + RuntimeMoves(runtime) > 0
    ensures reason == BothActive ==> SlotConnected(runtime, Player1) && SlotConnected(runtime, Player2)
    ensures reason == Full ==> !(SlotConnected(runtime, Player1) && SlotConnected(runtime, Player2))
  {
    if Truthy(m.winner) || m.endTime.Some? then AlreadyCompleted
    else if PersistedMoves(m) + RuntimeMoves(runtime) > 0 then AlreadyStarted
    else if SlotConnected(runtime, Player1) && SlotConnected(runtime, Player2) then BothActive
    else Full
  }

  /**
   * `resolveJoinSide`: the fill-then-reject rule, and then, when both slots are
   * held by others but the match has no progress, the first slot without a
   * live connection is taken over.  `None` means the join is refused.
   */
  function ResolveJoinSide(m: MatchRecord, name: string, runtime: Option<Session>): (r: (Option<Side>, MatchRecord))
    ensures r.0.None? ==> r.1 == m
    ensures r.0.Some? ==> r.1.Player(r.0.value) == Some(name)
    ensures r.0.Some? ==> r.1.Player(r.0.value.Opposite()) == m.Player(r.0.value.Opposite())
    ensures r.1.(player1 := m.player1, player2 := m.player2) == m
    ensures m.player1 == Some(name) ==> r == (Some(Player1), m)
    ensures m.player1 != Some(name) && m.player2 == Some(name) ==> r == (Some(Player2), m)
  {
    if m.player1 == Some(name) then (Some(Player1), m)
    else if m.player2 == Some(name) then (Some(Player2), m)
    else if !Truthy(m.player1) then (Some(Player1), m.(player1 := Some(name)))
    else if !Truthy(m.player2) then (Some(Player2), m.(player2 := Some(name)))
    else if !NoMatchProgress(m, runtime) then (None, m)
    else if !SlotConnected(runtime, Player1) then (Some(Player1), m.(player1 := Some(name)))
    else if !SlotConnected(runtime, Player2) then (Some(Player2), m.(player2 := Some(name)))
    else (None, m)
  }

  /** Where the simple rule admits a player, the takeover rule admits them to the same slot. */
  lemma ResolveExtendsClaim(m: MatchRecord, name: string, runtime: Option<Session>)
    ensures ClaimSlot(m, name).Some? ==>
      ResolveJoinSide(m, name, runtime) == (Some(ClaimSlot(m, name).value.0), ClaimSlot(m, name).value.1)
    ensures ClaimSlot(m, name).None? && ResolveJoinSide(m, name, runtime).0.Some? ==>
      NoMatchProgress(m, runtime)
  {
  }

  /**
   * A takeover only ever displaces an occupant of a match without progress
   * whose slot has no live connection, and player 1 is preferred when both
   * slots qualify.
   */
  lemma TakeoverOnlyDisplacesIdle(m: MatchRecord, name: string, runtime: Option<Session>, side: Side)
    requires ResolveJoinSide(m, name, runtime).0 == Some(side)
    requires Truthy(m.Player(side)) && m.Player(side) != Some(name)
    ensures NoMatchProgress(m, runtime)
    ensures !SlotConnected(runtime, side)
    ensures m.player1 != Some(name) && m.player2 != Some(name)
    ensures Truthy(m.player1) && Truthy(m.player2)
    ensures side == Player2 ==> SlotConnected(runtime, Player1)
  {
  }

  /** Refusal happens exactly when both slots are held by others and no idle slot may be taken over. */
  lemma ResolveRefusal(m: MatchRecord, name: string, runtime: Option<Session>)
    ensures ResolveJoinSide(m, name, runtime).0.None? <==>
      && m.player1 != Some(name) && m.player2 != Some(name)
      && Truthy(m.player1) && Truthy(m.player2)
      && (!NoMatchProgress(m, runtime) || (SlotConnected(runtime, Player1) && SlotConnected(runtime, Player2)))
  {
  }

  /**
   * When no recorded move count is negative, the block reason agrees with the
   * takeover test: a match is reported completed or started exactly when it
   * has progress, and a progress-free refusal is always because both players
   * are connected.
   */
  lemma BlockReasonMatchesResolution(m: MatchRecord, name: string, runtime: Option<Session>)
    requires m.player1Moves >= 0 && m.player2Moves >= 0
    requires runtime.Some? ==> runtime.value.stats1.moves >= 0 && runtime.value.stats2.moves >= 0
    ensures NoMatchProgress(m, runtime) <==> GetJoinBlockReason(m, runtime) !in {AlreadyCompleted, AlreadyStarted}
    ensures ResolveJoinSide(m, name, runtime).0.None? && NoMatchProgress(m, runtime) ==>
      GetJoinBlockReason(m, runtime) == BothActive
  {
  }

  /** Joining again under the same name after a successful resolution returns the same slot, unchanged. */
  lemma ResolveIdempotent(m: MatchRecord, name: string, runtime: Option<Session>, runtime': Option<Session>)
    requires ResolveJoinSide(m, name, runtime).0.Some?
    ensures var (side, m') := ResolveJoinSide(m, name, runtime);
      ResolveJoinSide(m', name, runtime') == (side, m')
  {
  }
}
