/**
 * `AlienBase.cpp`: an alien base on the globe, its deployment, marker and save
 * record. The fields every target shares (`Target::load`/`save`) arrive as the
 * `base` node.
 */
module AlienBase {
  import opened Common
  import opened SaveNode

  /** The fields `load` restores. */
  datatype BaseFields = BaseFields(pactCountry: string, race: string, inBattlescape: bool, discovered: bool,
                                   startMonth: Int32, minutesSinceLastHunt: Int32, genMissionCount: Int32)

  /** The keys an alien base writes over the target's own node. */
  const BaseKeys: set<string> := {"pactCountry", "race", "inBattlescape", "discovered", "deployment",
                                  "startMonth", "minutesSinceLastHuntMissionGeneration", "genMissionCount"}

  /** `load` over the fields `f`: every field whose key is absent or unreadable keeps its value. */
  function LoadBase(node: Node, f: BaseFields): (r: BaseFields)
    ensures (forall k :: k in node ==> k !in BaseKeys) ==> r == f
    ensures "pactCountry" !in node ==> r.pactCountry == f.pactCountry
    ensures "race" !in node ==> r.race == f.race
    ensures "inBattlescape" !in node ==> r.inBattlescape == f.inBattlescape
    ensures "discovered" !in node ==> r.discovered == f.discovered
    ensures "startMonth" !in node ==> r.startMonth == f.startMonth
    ensures "minutesSinceLastHuntMissionGeneration" !in node ==> r.minutesSinceLastHunt == f.minutesSinceLastHunt
    ensures "genMissionCount" !in node ==> r.genMissionCount == f.genMissionCount
  {
    BaseFields(
      AsString(node, "pactCountry", f.pactCountry),
      AsString(node, "race", f.race),
      AsBool(node, "inBattlescape", f.inBattlescape),
      AsBool(node, "discovered", f.discovered),
      AsInt(node, "startMonth", f.startMonth),
      AsInt(node, "minutesSinceLastHuntMissionGeneration", f.minutesSinceLastHunt),
      AsInt(node, "genMissionCount", f.genMissionCount))
  }

  class AlienBase {
    var pactCountry: string
    var race: string
    var inBattlescape: bool
    var discovered: bool
    var deployment: Deployment
    var startMonth: Int32
    var minutesSinceLastHunt: Int32
    var genMissionCount: Int32

    /** A new base may spawn a hunt mission at once: its hunt timer starts at the maximum. */
    constructor (deployment: Deployment, startMonth: Int32)
      ensures this.deployment == deployment
      ensures Fields() == BaseFields("", "", false, false, startMonth, deployment.huntMissionMaxFrequency, 0)
    {
      pactCountry := "";
      race := "";
      inBattlescape := false;
      discovered := false;
      this.deployment := deployment;
      this.startMonth := startMonth;
      genMissionCount := 0;
      minutesSinceLastHunt := deployment.huntMissionMaxFrequency;
    }

    function Fields(): BaseFields
      reads this
    {
      BaseFields(pactCountry, race, inBattlescape, discovered, startMonth, minutesSinceLastHunt, genMissionCount)
    }

    /** `load`: reads each saved field, keeping the current value when it is missing; the deployment is not read. */
    method Load(node: Node)
      modifies this`pactCountry, this`race, this`inBattlescape, this`discovered, this`startMonth,
               this`minutesSinceLastHunt, this`genMissionCount
      ensures Fields() == LoadBase(node, old(Fields()))
    {
      pactCountry := AsString(node, "pactCountry", pactCountry);
      race := AsString(node, "race", race);
      inBattlescape := AsBool(node, "inBattlescape", inBattlescape);
      discovered := AsBool(node, "discovered", discovered);
      startMonth := AsInt(node, "startMonth", startMonth);
      minutesSinceLastHunt := AsInt(node, "minutesSinceLastHuntMissionGeneration", minutesSinceLastHunt);
      genMissionCount := AsInt(node, "genMissionCount", genMissionCount);
    }

    /** `save`: the target's node with the base written over it; the two flags are left out when false. */
    function Save(base: Node): (node: Node)
      reads this
      ensures forall k :: k in base && k !in BaseKeys ==> k in node && node[k] == base[k]
      ensures forall k :: k in node && k !in BaseKeys ==> k in base
      ensures "pactCountry" in node && "race" in node && "startMonth" in node
      ensures "minutesSinceLastHuntMissionGeneration" in node && "genMissionCount" in node
      ensures "deployment" in node && node["deployment"] == StrValue(deployment.typeName)
      ensures "inBattlescape" !in base ==> ("inBattlescape" in node <==> inBattlescape)
      ensures "discovered" !in base ==> ("discovered" in node <==> discovered)
    {
      var n1 := base["pactCountry" := StrValue(pactCountry)]["race" := StrValue(race)];
      var n2 := if inBattlescape then n1["inBattlescape" := BoolValue(inBattlescape)] else n1;
      var n3 := if discovered then n2["discovered" := BoolValue(discovered)] else n2;
      n3["deployment" := StrValue(deployment.typeName)]
        ["startMonth" := IntValue(startMonth)]
        ["minutesSinceLastHuntMissionGeneration" := IntValue(minutesSinceLastHunt)]
        ["genMissionCount" := IntValue(genMissionCount)]
    }

    /** `getType`: the marker name of the base's deployment. */
    function Type(): (name: string)
      reads this
    {
      deployment.markerName
    }

    /** `getMarker`: no marker until discovered, then the deployment's icon as it is. */
    function Marker(): (m: int)
      reads this
      ensures !discovered ==> m == -1
      ensures discovered ==> m == deployment.markerIcon
    {
      if !discovered then -1 else deployment.markerIcon
    }

    /** `setDeployment`: an upgraded base may spawn a hunt mission at once. */
    method SetDeployment(deployment: Deployment)
      modifies this`deployment, this`minutesSinceLastHunt
      ensures this.deployment == deployment
      ensures minutesSinceLastHunt == deployment.huntMissionMaxFrequency
    {
      this.deployment := deployment;
      minutesSinceLastHunt := this.deployment.huntMissionMaxFrequency;
    }

    method SetPactCountry(pactCountry: string)
      modifies this`pactCountry
      ensures this.pactCountry == pactCountry
    {
      this.pactCountry := pactCountry;
    }

    method SetAlienRace(race: string)
      modifies this`race
      ensures this.race == race
    {
      this.race := race;
    }

    method SetInBattlescape(inBattle: bool)
      modifies this`inBattlescape
      ensures inBattlescape == inBattle
    {
      inBattlescape := inBattle;
    }

    method SetDiscovered(discovered: bool)
      modifies this`discovered
      ensures this.discovered == discovered
    {
      this.discovered := discovered;
    }

    method SetMinutesSinceLastHunt(minutes: Int32)
      modifies this`minutesSinceLastHunt
      ensures minutesSinceLastHunt == minutes
    {
      minutesSinceLastHunt := minutes;
    }

    method SetGenMissionCount(count: Int32)
      modifies this`genMissionCount
      ensures genMissionCount == count
    {
      genMissionCount := count;
    }
  }

  /**
   * Loading a saved base over the fields `f` restores the saved fields exactly when
   * the flags left out of the save (false ones) are already false in `f`.
   */
  lemma SaveLoadRoundTrip(b: AlienBase, base: Node, f: BaseFields)
    requires forall k :: k in base ==> k !in BaseKeys
    ensures LoadBase(b.Save(base), f) == b.Fields() <==>
      (b.inBattlescape || !f.inBattlescape) && (b.discovered || !f.discovered)
  {
    var node := b.Save(base);
    assert node["pactCountry"] == StrValue(b.pactCountry);
    assert node["race"] == StrValue(b.race);
    assert node["startMonth"] == IntValue(b.startMonth);
    assert node["minutesSinceLastHuntMissionGeneration"] == IntValue(b.minutesSinceLastHunt);
    assert node["genMissionCount"] == IntValue(b.genMissionCount);
    if b.inBattlescape {
      assert node["inBattlescape"] == BoolValue(true);
    }
    if b.discovered {
      assert node["discovered"] == BoolValue(true);
    }
  }

  /** A base newly built from any deployment takes back everything a save recorded. */
  lemma SaveLoadIntoFreshBase(b: AlienBase, base: Node, d: Deployment, month: Int32)
    requires forall k :: k in base ==> k !in BaseKeys
    ensures LoadBase(b.Save(base), BaseFields("", "", false, false, month, d.huntMissionMaxFrequency, 0)) == b.Fields()
  {
    SaveLoadRoundTrip(b, base, BaseFields("", "", false, false, month, d.huntMissionMaxFrequency, 0));
  }
}
