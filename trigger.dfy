/**
 * The trigger registry (trigger.go): trigger code -> definition, plus a
 * replaceable list of common parameters shared by every trigger.  The
 * registry's reader-writer lock is not modelled; operations run one at a time.
 */
module Trigger {
  import opened Wrappers

  /** A declared template parameter; type, description and `required` are advisory. */
  datatype Param = Param(name: string, kind: string, description: string, required: bool, example: string)

  datatype TriggerDefinition = TriggerDefinition(code: string, name: string, description: string, params: seq<Param>)

  class TriggerRegistry {
    var triggers: map<string, TriggerDefinition>
    var commonParams: seq<Param>

    /** Every entry is filed under its own code. */
    ghost predicate Valid()
      reads this
    {
      forall code :: code in triggers ==> triggers[code].code == code
    }

    /** `NewTriggerRegistry`: no triggers and no common parameters. */
    constructor ()
      ensures Valid()
      ensures triggers == map[] && GetCommonParams() == []
    {
      triggers := map[];
      commonParams := [];
    }

    /** `Get`: the definition filed under `code`, if any. */
    function Get(code: string): (r: Option<TriggerDefinition>)
      reads this
      ensures r.Some? <==> code in triggers
      ensures Valid() && r.Some? ==> r.value.code == code
    {
      if code in triggers then Some(triggers[code]) else None
    }

    /** `Exists`: holds exactly when `Get` finds the code. */
    predicate Exists(code: string)
      reads this
      ensures Exists(code) <==> Get(code).Some?
    {
      code in triggers
    }

    /**
     * `Register`: files a new definition under `code`, replacing any earlier
     * one whole; every other code and the common parameters are untouched.
     */
    method Register(code: string, name: string, description: string, params: seq<Param>)
      returns (def: TriggerDefinition)
      requires Valid()
      modifies this`triggers
      ensures Valid()
      ensures def == TriggerDefinition(code, name, description, params)
      ensures Get(code) == Some(def)
      ensures forall other :: other != code ==> Get(other) == old(Get(other))
      ensures triggers.Keys == old(triggers.Keys) + {code}
      ensures GetCommonParams() == old(GetCommonParams())
    {
      def := TriggerDefinition(code, name, description, params);
      triggers := triggers[code := def];
    }

    /**
     * `GetAll`: one definition per registered code, each the one filed under
     * its code.  The order is whatever the map iteration yields.
     */
    method GetAll() returns (defs: seq<TriggerDefinition>)
      requires Valid()
      ensures |defs| == |triggers|
      ensures forall i :: 0 <= i < |defs| ==> Get(defs[i].code) == Some(defs[i])
      ensures forall code :: code in triggers ==> triggers[code] in defs
      ensures forall i, j :: 0 <= i < j < |defs| ==> defs[i].code != defs[j].code
    {
      defs := [];
      var remaining := triggers.Keys;
      while remaining != {}
        invariant remaining <= triggers.Keys
        invariant |defs| + |remaining| == |triggers|
        invariant forall i :: 0 <= i < |defs| ==>
                    defs[i].code in triggers && defs[i].code !in remaining && triggers[defs[i].code] == defs[i]
        invariant forall code :: code in triggers && code !in remaining ==> triggers[code] in defs
        invariant forall i, j :: 0 <= i < j < |defs| ==> defs[i].code != defs[j].code
        decreases remaining
      {
        var code :| code in remaining;
        defs := defs + [triggers[code]];
        remaining := remaining - {code};
      }
    }

    /** `Codes`: every registered code exactly once, in no promised order. */
    method Codes() returns (codes: seq<string>)
      ensures |codes| == |triggers|
      ensures forall i :: 0 <= i < |codes| ==> codes[i] in triggers
      ensures forall code :: code in triggers ==> code in codes
      ensures forall i, j :: 0 <= i < j < |codes| ==> codes[i] != codes[j]
    {
      codes := [];
      var remaining := triggers.Keys;
      while remaining != {}
        invariant remaining <= triggers.Keys
        invariant |codes| + |remaining| == |triggers|
        invariant forall i :: 0 <= i < |codes| ==> codes[i] in triggers && codes[i] !in remaining
        invariant forall code :: code in triggers && code !in remaining ==> code in codes
        invariant forall i, j :: 0 <= i < j < |codes| ==> codes[i] != codes[j]
        decreases remaining
      {
        var code :| code in remaining;
        codes := codes + [code];
        remaining := remaining - {code};
      }
    }

    /** `SetCommonParams`: replaces the common list; the triggers are untouched. */
    method SetCommonParams(params: seq<Param>)
      modifies this`commonParams
      ensures GetCommonParams() == params
      ensures triggers == old(triggers)
    {
      commonParams := params;
    }

    /** `GetCommonParams`. */
    function GetCommonParams(): seq<Param>
      reads this
    {
      commonParams
    }

    /**
     * `GetAllParams`: the common parameters, in order, followed by the
     * trigger's own, in order; only the common ones for an unknown code.
     */
    function GetAllParams(code: string): (r: seq<Param>)
      reads this
      ensures code !in triggers ==> r == commonParams
      ensures code in triggers ==> |r| == |commonParams| + |triggers[code].params|
      ensures r[..|commonParams|] == commonParams
      ensures code in triggers ==> r[|commonParams|..] == triggers[code].params
    {
      if code !in triggers then commonParams
      else commonParams + triggers[code].params
    }
  }
}
