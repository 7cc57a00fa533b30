/** The transport is safe exactly when neither a request nor an answer is longer than a record's data. */
module TransportExact {
  import opened Transport
  import opened TransportSafety
  import opened TransportBound

  ghost predicate AlwaysSafe(bounds: Bounds) {
    forall s, actions | Initial(s) && LegalRun(s, actions, bounds) :: Safe(Run(s, actions))
  }

  lemma UnsafeRun(bounds: Bounds) returns (actions: seq<Action>)
    requires bounds.answer > MAX_DATA || bounds.job > MAX_DATA
    ensures Shape(Start()) && LegalRun(Start(), actions, bounds) && !Safe(Run(Start(), actions))
  {
    var bad;
    if bounds.answer > MAX_DATA {
      bad := TakenTwice(bounds);
    } else {
      bad := PublishedCut(bounds);
    }
    actions :| Path(actions, bad, bounds);
  }

  /** Every run is safe if and only if requests and the engine's answers fit a record. Longer answers break even
      mutual exclusion on a slot, longer requests publish a record that does not hold them. */
  lemma SafeIffBoundsFit(bounds: Bounds)
    ensures AlwaysSafe(bounds) <==> bounds.Fit()
  {
    if bounds.Fit() {
      forall s, actions | Initial(s) && LegalRun(s, actions, bounds)
        ensures Safe(Run(s, actions))
      {
        TransportSafe(s, actions, bounds);
      }
    } else {
      var actions := UnsafeRun(bounds);
      assert Initial(Start());
    }
  }
}
