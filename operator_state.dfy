/** The operator's long-lived state: the class-label table and the network's output-layer names. */
module OperatorState {
  import opened FlowTypes

  /**
   * The loaded detector. The network itself is foreign and not modelled; what is kept is
   * the ordered class names, their count and the names of the output layers to collect.
   */
  class State {
    var classes: seq<string>
    var outputs: seq<string>
    var numClasses: nat
    var flags: seq<int>

    /** The class count is the length of the class-name list. */
    ghost predicate Valid()
      reads this
    {
      numClasses == |classes|
    }

    /**
     * Loads the class list line by line. `classFile` is the content of the class-list
     * resource split into lines, or None when it cannot be opened; in that case the
     * loop reads nothing and the state has no classes. `outLayerNames` are the names
     * the network reports for its unconnected output layers.
     */
    constructor (classFile: Option<seq<string>>, outLayerNames: seq<string>)
      ensures Valid()
      ensures classFile.Some? ==> classes == classFile.value
      ensures classFile.None? ==> classes == []
      ensures numClasses == |classes|
      ensures outputs == outLayerNames && flags == [0]
    {
      classes := [];
      outputs := [];
      numClasses := 0;
      flags := [];
      new;
      var lines := if classFile.Some? then classFile.value else [];
      var i := 0;
      while i < |lines|
        invariant 0 <= i <= |lines|
        invariant classes == lines[..i]
      {
        classes := classes + [lines[i]];
        i := i + 1;
      }
      assert lines[..|lines|] == lines;
      outputs := outLayerNames;
      numClasses := |classes|;
      flags := [0];
    }
  }
}
