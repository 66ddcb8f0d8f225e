/**
 * `get_non_target_child_participants`: which speakers of a transcript are
 * kept, by their recorded role.
 */
module Participants {
  import opened Seqs

  datatype Participant = Participant(id: string, role: string)

  /**
   * What the corpus reader reports for one transcript: a list of dicts, each
   * holding participants by key; each inner sequence is one dict's values in
   * key order.
   */
  type Headers = seq<seq<Participant>>

  /** Every participant record, in the order the nested loops visit them. */
  function AllParticipants(hs: Headers): seq<Participant> {
    ConcatMap(hs, Members)
  }

  function Members(h: seq<Participant>): seq<Participant> { h }

  predicate IsTargetChildRole(role: string) { role == "Target_Child" }
  predicate IsChildRole(role: string) { role == "Child" }
  predicate IsOtherRole(role: string) { role != "Target_Child" && role != "Child" }

  /** The ids of the participants whose role satisfies `keep`, in visiting order. */
  function IdsWhere(ps: seq<Participant>, keep: string -> bool): seq<string> {
    if ps == [] then []
    else
      var last := ps[|ps| - 1];
      IdsWhere(ps[..|ps| - 1], keep) + (if keep(last.role) then [last.id] else [])
  }

  /** An id is listed exactly when some participant with that id has a kept role. */
  lemma {:induction false} IdsWhereMembers(ps: seq<Participant>, keep: string -> bool)
    ensures forall x :: x in IdsWhere(ps, keep) <==> exists p :: p in ps && keep(p.role) && p.id == x
  {
    if ps != [] {
      var init, last := ps[..|ps| - 1], ps[|ps| - 1];
      IdsWhereMembers(init, keep);
      InSnoc(init, last);
      SplitLast(ps);
      var tail := if keep(last.role) then [last.id] else [];
      forall x ensures x in IdsWhere(init, keep) + tail <==> x in IdsWhere(init, keep) || x in tail {
      }
    }
  }

  lemma AllParticipantsSnoc(hs: Headers, a: nat)
    requires a < |hs|
    ensures AllParticipants(hs[..a + 1]) == AllParticipants(hs[..a]) + hs[a]
  {
    assert hs[..a + 1] == hs[..a] + [hs[a]];
    ConcatMapAppend(hs[..a], [hs[a]], Members);
    assert ConcatMap([hs[a]], Members) == Members(hs[a]) + ConcatMap([], Members);
  }

  /** Some participant is coded with the role "Target_Child". */
  predicate HasTargetChild(ps: seq<Participant>) {
    exists p :: p in ps && IsTargetChildRole(p.role)
  }

  /** Visiting one more participant extends each id list by at most that participant's id. */
  lemma VisitOne(seen: seq<Participant>, p: Participant)
    ensures IdsWhere(seen + [p], IsOtherRole)
         == IdsWhere(seen, IsOtherRole) + (if IsOtherRole(p.role) then [p.id] else [])
    ensures IdsWhere(seen + [p], IsChildRole)
         == IdsWhere(seen, IsChildRole) + (if IsChildRole(p.role) then [p.id] else [])
    ensures HasTargetChild(seen + [p]) <==> HasTargetChild(seen) || IsTargetChildRole(p.role)
  {
    assert (seen + [p])[..|seen|] == seen;
    InSnoc(seen, p);
  }

  /** The three values the loops keep are those of the participants `ps` visited so far. */
  predicate Scanned(ps: seq<Participant>, others: seq<string>, children: seq<string>, target: bool) {
    && others == IdsWhere(ps, IsOtherRole)
    && children == IdsWhere(ps, IsChildRole)
    && target == HasTargetChild(ps)
  }

  /** The same step, for the `b`-th participant of a header visited after `before`. */
  lemma VisitNext(before: seq<Participant>, h: seq<Participant>, b: nat,
                  others: seq<string>, children: seq<string>, target: bool)
    requires b < |h| && Scanned(before + h[..b], others, children, target)
    ensures Scanned(before + h[..b + 1],
                    others + (if IsOtherRole(h[b].role) then [h[b].id] else []),
                    children + (if IsChildRole(h[b].role) then [h[b].id] else []),
                    target || IsTargetChildRole(h[b].role))
  {
    assert before + h[..b + 1] == (before + h[..b]) + [h[b]];
    VisitOne(before + h[..b], h[b]);
  }

  /**
   * `get_non_target_child_participants`: the ids of all participants that are
   * neither "Target_Child" nor "Child", followed, when some participant is
   * coded "Target_Child", by the ids of the "Child" participants (then those
   * are siblings, not the child under study).
   */
  method GetNonTargetChildParticipants(hs: Headers) returns (ids: seq<string>)
    ensures ids == IdsWhere(AllParticipants(hs), IsOtherRole)
                   + (if HasTargetChild(AllParticipants(hs))
                      then IdsWhere(AllParticipants(hs), IsChildRole) else [])
  {
    var targetChildCodedAsTargetChild := false;
    var codedAsChild: seq<string> := [];
    ids := [];
    for a := 0 to |hs|
      invariant Scanned(AllParticipants(hs[..a]), ids, codedAsChild, targetChildCodedAsTargetChild)
    {
      ghost var before := AllParticipants(hs[..a]);
      assert before + hs[a][..0] == before;
      for b := 0 to |hs[a]|
        invariant Scanned(before + hs[a][..b], ids, codedAsChild, targetChildCodedAsTargetChild)
      {
        var p := hs[a][b];
        VisitNext(before, hs[a], b, ids, codedAsChild, targetChildCodedAsTargetChild);
        if IsOtherRole(p.role) {
          ids := ids + [p.id];
        }
        if IsTargetChildRole(p.role) {
          targetChildCodedAsTargetChild := true;
        }
        if IsChildRole(p.role) {
          codedAsChild := codedAsChild + [p.id];
        }
      }
      AllParticipantsSnoc(hs, a);
      assert hs[a][..|hs[a]|] == hs[a];
    }
    assert hs[..|hs|] == hs;
    if targetChildCodedAsTargetChild {
      ids := ids + codedAsChild;
    }
  }

  /**
   * A participant id is returned exactly when some participant with that id
   * is neither "Target_Child" nor "Child", or is a "Child" in a transcript
   * that also has a "Target_Child".
   */
  lemma NonTargetChildMembership(hs: Headers, x: string)
    ensures var ps := AllParticipants(hs);
      x in IdsWhere(ps, IsOtherRole) + (if HasTargetChild(ps) then IdsWhere(ps, IsChildRole) else [])
      <==> exists p :: p in ps && p.id == x &&
             (IsOtherRole(p.role) || (IsChildRole(p.role) && HasTargetChild(ps)))
  {
    var ps := AllParticipants(hs);
    IdsWhereMembers(ps, IsOtherRole);
    IdsWhereMembers(ps, IsChildRole);
  }
}
