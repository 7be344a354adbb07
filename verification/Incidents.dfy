/** Incidents and their history rows, as kept by the state rules and the monitor
    loss alerts (internal/alerts/alerts_state.go, alerts_network_monitors.go,
    alerts_history.go).

    An owner, a rule or an alert, holds at most one open incident per target: the
    ID of its history row. Rows can be purged at any time. `born` remembers which
    incident every ID ever given out belongs to, and `log` what was sent. */
module Incidents {
  import opened Common

  datatype Incident = Incident(owner: string, target: string)

  datatype Notice =
    | Sent(owner: string, target: string, triggered: bool)
    | Silent(owner: string, target: string)
    | Reset(owner: string)

  /** `rows` maps the ID of each history row to whether it is resolved. */
  datatype Desk = Desk(born: seq<Incident>, rows: map<nat, bool>, held: map<string, map<string, nat>>, log: seq<Notice>)

  // ------------------------------------------------------------------ operations

  /** Saves a new history row and sends a triggered message. */
  function Open(desk: Desk, owner: string, target: string): Desk
    requires owner in desk.held
  {
    var id: nat := |desk.born|;
    var mine: map<string, nat> := desk.held[owner][target := id];
    Desk(desk.born + [Incident(owner, target)], desk.rows[id := false],
         desk.held[owner := mine], desk.log + [Sent(owner, target, true)])
  }

  /** Resolves a row unless it is gone or already resolved. */
  function Resolve(rows: map<nat, bool>, id: nat): map<nat, bool> {
    if id in rows then rows[id := true] else rows
  }

  function Close(desk: Desk, owner: string, target: string, notice: Notice): Desk
    requires owner in desk.held && target in desk.held[owner]
  {
    desk.(rows := Resolve(desk.rows, desk.held[owner][target]),
          held := desk.held[owner := desk.held[owner] - {target}],
          log := desk.log + [notice])
  }

  /** Resolves every unresolved row of an owner. */
  function ResolveAll(born: seq<Incident>, rows: map<nat, bool>, owner: string): map<nat, bool> {
    map id | id in rows :: rows[id] || (id < |born| && born[id].owner == owner)
  }

  /** A changed rule starts over. */
  function StartOver(desk: Desk, owner: string): Desk {
    desk.(rows := ResolveAll(desk.born, desk.rows, owner), held := desk.held[owner := map[]],
          log := desk.log + [Reset(owner)])
  }

  /** A deleted owner leaves no unresolved row behind. */
  function Discard(desk: Desk, owner: string): Desk {
    desk.(rows := ResolveAll(desk.born, desk.rows, owner), held := desk.held - {owner},
          log := desk.log + [Reset(owner)])
  }

  function Register(desk: Desk, owner: string): Desk {
    desk.(held := desk.held[owner := map[]], log := desk.log + [Reset(owner)])
  }

  function Purge(desk: Desk, id: nat): Desk {
    desk.(rows := desk.rows - {id})
  }

  // ------------------------------------------------------------------- invariants

  /** What was last said about a target since its owner started over. */
  function LastSaid(log: seq<Notice>, owner: string, target: string): Option<bool> {
    if |log| == 0 then None
    else
      match log[|log| - 1]
      case Sent(o, t, triggered) =>
        if o == owner && t == target then Some(triggered) else LastSaid(log[..|log| - 1], owner, target)
      case Silent(o, t) =>
        if o == owner && t == target then None else LastSaid(log[..|log| - 1], owner, target)
      case Reset(o) =>
        if o == owner then None else LastSaid(log[..|log| - 1], owner, target)
  }

  /** Triggered and recovered messages of a target take turns, triggered first. */
  ghost predicate Alternates(log: seq<Notice>) {
    forall i :: 0 <= i < |log| && log[i].Sent? ==>
      (log[i].triggered <==> LastSaid(log[..i], log[i].owner, log[i].target) != Some(true))
  }

  /** Whether an owner holds an ID for a target. */
  predicate Holds(desk: Desk, owner: string, target: string) {
    owner in desk.held && target in desk.held[owner]
  }

  /** A held ID belongs to that incident and its row is unresolved or purged. */
  ghost predicate HeldIsOpen(desk: Desk) {
    forall owner, target :: Holds(desk, owner, target) ==>
      var id := desk.held[owner][target];
      id < |desk.born| && desk.born[id] == Incident(owner, target) && (id in desk.rows ==> !desk.rows[id])
  }

  /** An unresolved row is held, by its own incident. */
  ghost predicate OpenIsHeld(desk: Desk) {
    forall id :: id in desk.rows && !desk.rows[id] ==>
      && id < |desk.born|
      && var incident := desk.born[id];
      Holds(desk, incident.owner, incident.target) && desk.held[incident.owner][incident.target] == id
  }

  ghost predicate SaidWhatIsHeld(desk: Desk) {
    forall owner, target :: Holds(desk, owner, target) <==>
      owner in desk.held && LastSaid(desk.log, owner, target) == Some(true)
  }

  ghost predicate Inv(desk: Desk) {
    && (forall id :: id in desk.rows ==> id < |desk.born|)
    && HeldIsOpen(desk)
    && OpenIsHeld(desk)
    && SaidWhatIsHeld(desk)
    && Alternates(desk.log)
  }

  // ---------------------------------------------------------------- preservation

  lemma {:induction false} AlternatesOn(log: seq<Notice>, notice: Notice)
    requires Alternates(log)
    requires notice.Sent? ==> (notice.triggered <==> LastSaid(log, notice.owner, notice.target) != Some(true))
    ensures Alternates(log + [notice])
  {
    var longer := log + [notice];
    forall i | 0 <= i < |longer| && longer[i].Sent?
      ensures longer[i].triggered <==> LastSaid(longer[..i], longer[i].owner, longer[i].target) != Some(true)
    {
      if i < |log| {
        assert longer[i] == log[i] && longer[..i] == log[..i];
      } else {
        assert longer[..i] == log;
      }
    }
  }

  lemma {:induction false} LastSaidNext(log: seq<Notice>, notice: Notice, owner: string, target: string)
    ensures LastSaid(log + [notice], owner, target) ==
      match notice
      case Sent(o, t, triggered) => if o == owner && t == target then Some(triggered) else LastSaid(log, owner, target)
      case Silent(o, t) => if o == owner && t == target then None else LastSaid(log, owner, target)
      case Reset(o) => if o == owner then None else LastSaid(log, owner, target)
  {
    assert (log + [notice])[..|log|] == log;
  }

  /** Opening an incident that is not open yet keeps the books in order. */
  lemma {:induction false} OpenKeeps(desk: Desk, owner: string, target: string)
    requires Inv(desk) && owner in desk.held && target !in desk.held[owner]
    ensures Inv(Open(desk, owner, target))
  {
    var desk' := Open(desk, owner, target);
    AlternatesOn(desk.log, Sent(owner, target, true));
    forall o, t ensures Holds(desk', o, t) <==> Holds(desk, o, t) || (o == owner && t == target) {
    }
    forall o, t ensures Holds(desk', o, t) <==> o in desk'.held && LastSaid(desk'.log, o, t) == Some(true) {
      LastSaidNext(desk.log, Sent(owner, target, true), o, t);
    }
    forall o, t | Holds(desk', o, t)
      ensures var id := desk'.held[o][t];
        id < |desk'.born| && desk'.born[id] == Incident(o, t) && (id in desk'.rows ==> !desk'.rows[id])
    {
      assert (o == owner && t == target) || Holds(desk, o, t);
    }
    forall id | id in desk'.rows && !desk'.rows[id]
      ensures id < |desk'.born| && var incident := desk'.born[id];
        Holds(desk', incident.owner, incident.target) && desk'.held[incident.owner][incident.target] == id
    {
      if id < |desk.born| {
        assert desk'.born[id] == desk.born[id];
      }
    }
  }

  /** Closing an open incident keeps them in order, with or without a message. */
  lemma {:induction false} CloseKeeps(desk: Desk, owner: string, target: string, notice: Notice)
    requires Inv(desk) && Holds(desk, owner, target)
    requires notice == Sent(owner, target, false) || notice == Silent(owner, target)
    ensures Inv(Close(desk, owner, target, notice))
  {
    var desk' := Close(desk, owner, target, notice);
    var closed := desk.held[owner][target];
    assert LastSaid(desk.log, owner, target) == Some(true);
    AlternatesOn(desk.log, notice);
    forall o, t ensures Holds(desk', o, t) <==> Holds(desk, o, t) && !(o == owner && t == target) {
    }
    forall o, t ensures Holds(desk', o, t) <==> o in desk'.held && LastSaid(desk'.log, o, t) == Some(true) {
      LastSaidNext(desk.log, notice, o, t);
    }
    forall o, t | Holds(desk', o, t)
      ensures var id := desk'.held[o][t];
        id < |desk'.born| && desk'.born[id] == Incident(o, t) && (id in desk'.rows ==> !desk'.rows[id])
    {
      assert Holds(desk, o, t) && desk'.held[o][t] == desk.held[o][t];
      assert desk.born[closed] == Incident(owner, target);
    }
    forall id | id in desk'.rows && !desk'.rows[id]
      ensures id < |desk'.born| && var incident := desk'.born[id];
        Holds(desk', incident.owner, incident.target) && desk'.held[incident.owner][incident.target] == id
    {
      assert id in desk.rows && !desk.rows[id] && id != closed;
    }
  }

  /** The books after an owner's rows are all resolved and what it holds is dropped. */
  lemma {:induction false} ResetKeeps(desk: Desk, owner: string, desk': Desk)
    requires Inv(desk)
    requires desk'.born == desk.born && desk'.rows == ResolveAll(desk.born, desk.rows, owner)
    requires desk'.log == desk.log + [Reset(owner)]
    requires desk'.held == desk.held[owner := map[]] || desk'.held == desk.held - {owner}
    ensures Inv(desk')
  {
    AlternatesOn(desk.log, Reset(owner));
    forall o, t ensures Holds(desk', o, t) <==> Holds(desk, o, t) && o != owner {
    }
    forall o, t ensures Holds(desk', o, t) <==> o in desk'.held && LastSaid(desk'.log, o, t) == Some(true) {
      LastSaidNext(desk.log, Reset(owner), o, t);
    }
    forall o, t | Holds(desk', o, t)
      ensures var id := desk'.held[o][t];
        id < |desk'.born| && desk'.born[id] == Incident(o, t) && (id in desk'.rows ==> !desk'.rows[id])
    {
      assert Holds(desk, o, t) && desk'.held[o][t] == desk.held[o][t];
    }
    forall id | id in desk'.rows && !desk'.rows[id]
      ensures id < |desk'.born| && var incident := desk'.born[id];
        Holds(desk', incident.owner, incident.target) && desk'.held[incident.owner][incident.target] == id
    {
      assert id in desk.rows && !desk.rows[id] && desk.born[id].owner != owner;
    }
  }

  lemma {:induction false} StartOverKeeps(desk: Desk, owner: string)
    requires Inv(desk)
    ensures Inv(StartOver(desk, owner)) && Inv(Discard(desk, owner))
  {
    ResetKeeps(desk, owner, StartOver(desk, owner));
    ResetKeeps(desk, owner, Discard(desk, owner));
  }

  lemma {:induction false} RegisterKeeps(desk: Desk, owner: string)
    requires Inv(desk) && owner !in desk.held
    ensures Inv(Register(desk, owner))
  {
    var desk' := Register(desk, owner);
    AlternatesOn(desk.log, Reset(owner));
    forall o, t ensures Holds(desk', o, t) <==> Holds(desk, o, t) {
    }
    forall o, t ensures Holds(desk', o, t) <==> o in desk'.held && LastSaid(desk'.log, o, t) == Some(true) {
      LastSaidNext(desk.log, Reset(owner), o, t);
    }
  }

  lemma {:induction false} PurgeKeeps(desk: Desk, id: nat)
    requires Inv(desk)
    ensures Inv(Purge(desk, id))
  {
    var desk' := Purge(desk, id);
    forall o, t ensures Holds(desk', o, t) <==> Holds(desk, o, t) {
    }
  }

  /** Exactly one incident holds an unresolved row. */
  lemma {:induction false} OpenRowHasOneHolder(desk: Desk, id: nat, o: string, t: string)
    requires Inv(desk) && id in desk.rows && !desk.rows[id]
    ensures Holds(desk, o, t) && desk.held[o][t] == id <==> desk.born[id] == Incident(o, t)
  {
    if Holds(desk, o, t) && desk.held[o][t] == id {
      assert desk.born[id] == Incident(o, t);
    }
  }
}
