/** The scheduling hooks the runtime calls around a run: the input gate and the output rule. */
module Rules {
  import opened FlowTypes

  /** Every token in the list is Ready. */
  predicate AllReady(tokens: seq<Token>)
  {
    forall i :: 0 <= i < |tokens| ==> tokens[i].status == Ready
  }

  /** The input gate: scans the tokens and answers false at the first one that is not Ready. */
  method InputRule(tokens: seq<Token>) returns (ready: bool)
    ensures ready <==> AllReady(tokens)
    ensures !ready ==> exists i :: 0 <= i < |tokens| && tokens[i].status != Ready
  {
    for k := 0 to |tokens|
      invariant AllReady(tokens[..k])
    {
      if tokens[k].status != Ready {
        return false;
      }
    }
    assert tokens[..|tokens|] == tokens;
    return true;
  }

  /** The gate is conjunctive: a list is ready exactly when each of its parts is. */
  lemma AllReadyAppend(a: seq<Token>, b: seq<Token>)
    ensures AllReady(a + b) <==> AllReady(a) && AllReady(b)
  {
    if AllReady(a + b) {
      forall i | 0 <= i < |a| ensures a[i].status == Ready {
        assert (a + b)[i] == a[i];
      }
      forall i | 0 <= i < |b| ensures b[i].status == Ready {
        assert (a + b)[|a| + i] == b[i];
      }
    }
    if AllReady(a) && AllReady(b) {
      forall i | 0 <= i < |a + b| ensures (a + b)[i].status == Ready {
        if i < |a| { assert (a + b)[i] == a[i]; } else { assert (a + b)[i] == b[i - |a|]; }
      }
    }
  }

  /** The output rule hands the run's outputs back unchanged, whatever deadline was missed. */
  function OutputRule(runOutputs: seq<Output>, deadlineMiss: LocalDeadlineMiss): (r: seq<Output>)
    ensures r == runOutputs
  {
    runOutputs
  }
}
