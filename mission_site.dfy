/**
 * `MissionSite.cpp`: an alien mission site on the globe, its marker and its save
 * record. The position and name that every target shares (`Target::load`/`save`)
 * arrive as the `base` node.
 */
module MissionSite {
  import opened Common
  import opened SaveNode

  /** The fields `load` restores. */
  datatype SiteFields = SiteFields(texture: Int32, secondsRemaining: Size, race: string,
                                   inBattlescape: bool, detected: bool)

  /** The keys a mission site writes over the target's own node. */
  const SiteKeys: set<string> := {"type", "deployment", "missionCustomDeploy", "texture",
                                  "secondsRemaining", "race", "inBattlescape", "detected"}

  /** The marker icon shown for a detected site whose deployment has none. */
  const DefaultSiteMarker: int := 5

  /** A new site: no texture, no time left, not in battle, not detected. */
  const FreshSite := SiteFields(-1, 0, "", false, false)

  /** `load` over the fields `f`: every field whose key is absent or unreadable keeps its value. */
  function LoadSite(node: Node, f: SiteFields): (r: SiteFields)
    ensures (forall k :: k in node ==> k !in SiteKeys) ==> r == f
    ensures "texture" !in node ==> r.texture == f.texture
    ensures "secondsRemaining" !in node ==> r.secondsRemaining == f.secondsRemaining
    ensures "race" !in node ==> r.race == f.race
    ensures "inBattlescape" !in node ==> r.inBattlescape == f.inBattlescape
    ensures "detected" !in node ==> r.detected == f.detected
  {
    SiteFields(
      AsInt(node, "texture", f.texture),
      AsSize(node, "secondsRemaining", f.secondsRemaining),
      AsString(node, "race", f.race),
      AsBool(node, "inBattlescape", f.inBattlescape),
      AsBool(node, "detected", f.detected))
  }

  class MissionSite {
    const rulesType: string
    const deployment: Deployment
    const missionCustomDeploy: Option<Deployment>
    var texture: Int32
    var secondsRemaining: Size
    var race: string
    var city: string
    var inBattlescape: bool
    var detected: bool

    constructor (rulesType: string, deployment: Deployment, missionCustomDeploy: Option<Deployment>)
      ensures this.rulesType == rulesType && this.deployment == deployment
      ensures this.missionCustomDeploy == missionCustomDeploy
      ensures Fields() == FreshSite && city == ""
    {
      this.rulesType := rulesType;
      this.deployment := deployment;
      this.missionCustomDeploy := missionCustomDeploy;
      texture := -1;
      secondsRemaining := 0;
      race := "";
      city := "";
      inBattlescape := false;
      detected := false;
    }

    function Fields(): SiteFields
      reads this
    {
      SiteFields(texture, secondsRemaining, race, inBattlescape, detected)
    }

    /** `load`: reads each saved field, keeping the current value when it is missing. */
    method Load(node: Node)
      modifies this`texture, this`secondsRemaining, this`race, this`inBattlescape, this`detected
      ensures Fields() == LoadSite(node, old(Fields()))
    {
      texture := AsInt(node, "texture", texture);
      secondsRemaining := AsSize(node, "secondsRemaining", secondsRemaining);
      race := AsString(node, "race", race);
      inBattlescape := AsBool(node, "inBattlescape", inBattlescape);
      detected := AsBool(node, "detected", detected);
    }

    /**
     * `save`: the target's node with the site written over it. The remaining time
     * is left out when zero, the battle flag when false.
     */
    function Save(base: Node): (node: Node)
      reads this
      ensures forall k :: k in base && k !in SiteKeys ==> k in node && node[k] == base[k]
      ensures forall k :: k in node && k !in SiteKeys ==> k in base
      ensures "texture" in node && "race" in node && "detected" in node
      ensures "type" in node && node["type"] == StrValue(rulesType)
      ensures "deployment" in node && node["deployment"] == StrValue(deployment.typeName)
      ensures "secondsRemaining" !in base ==> ("secondsRemaining" in node <==> secondsRemaining != 0)
      ensures "inBattlescape" !in base ==> ("inBattlescape" in node <==> inBattlescape)
      ensures "missionCustomDeploy" !in base ==> ("missionCustomDeploy" in node <==> missionCustomDeploy.Some?)
    {
      var n1 := base["type" := StrValue(rulesType)]["deployment" := StrValue(deployment.typeName)];
      var n2 := if missionCustomDeploy.Some? then n1["missionCustomDeploy" := StrValue(missionCustomDeploy.value.typeName)] else n1;
      var n3 := n2["texture" := IntValue(texture)];
      var n4 := if secondsRemaining != 0 then n3["secondsRemaining" := IntValue(secondsRemaining)] else n3;
      var n5 := n4["race" := StrValue(race)];
      var n6 := if inBattlescape then n5["inBattlescape" := BoolValue(inBattlescape)] else n5;
      n6["detected" := BoolValue(detected)]
    }

    /** `getType`: the marker name of the site's deployment. */
    function Type(): string
    {
      deployment.markerName
    }

    /** `getMarkerName`. */
    function MarkerName(): (name: string)
      ensures name == Type()
    {
      Type()
    }

    /** `getMarker`: no marker until detected, then the deployment's icon or the default one. */
    function Marker(): (m: int)
      reads this
      ensures m == -1 <==> !detected
      ensures detected && deployment.markerIcon != -1 ==> m == deployment.markerIcon
      ensures detected && deployment.markerIcon == -1 ==> m == DefaultSiteMarker
    {
      if !detected then -1
      else if deployment.markerIcon != -1 then deployment.markerIcon
      else DefaultSiteMarker
    }

    method SetAlienRace(race: string)
      modifies this`race
      ensures this.race == race
    {
      this.race := race;
    }

    method SetCity(city: string)
      modifies this`city
      ensures this.city == city
    {
      this.city := city;
    }

    method SetSecondsRemaining(seconds: Size)
      modifies this`secondsRemaining
      ensures secondsRemaining == seconds
    {
      secondsRemaining := seconds;
    }

    method SetInBattlescape(inBattle: bool)
      modifies this`inBattlescape
      ensures inBattlescape == inBattle
    {
      inBattlescape := inBattle;
    }

    method SetTexture(texture: Int32)
      modifies this`texture
      ensures this.texture == texture
    {
      this.texture := texture;
    }

    method SetDetected(detected: bool)
      modifies this`detected
      ensures this.detected == detected
    {
      this.detected := detected;
    }
  }

  /**
   * Loading a saved site over the fields `f` restores the saved fields exactly when
   * the fields left out of the save (a zero time, a false battle flag) are already
   * zero and false in `f`.
   */
  lemma SaveLoadRoundTrip(site: MissionSite, base: Node, f: SiteFields)
    requires forall k :: k in base ==> k !in SiteKeys
    ensures LoadSite(site.Save(base), f) == site.Fields() <==>
      (site.secondsRemaining != 0 || f.secondsRemaining == 0) && (site.inBattlescape || !f.inBattlescape)
  {
    var node := site.Save(base);
    assert "texture" in node && node["texture"] == IntValue(site.texture);
    assert "race" in node && node["race"] == StrValue(site.race);
    assert "detected" in node && node["detected"] == BoolValue(site.detected);
    if site.secondsRemaining != 0 {
      assert node["secondsRemaining"] == IntValue(site.secondsRemaining);
    }
    if site.inBattlescape {
      assert node["inBattlescape"] == BoolValue(true);
    }
  }

  /** A freshly constructed site takes back everything a save recorded. */
  lemma SaveLoadIntoFreshSite(site: MissionSite, base: Node)
    requires forall k :: k in base ==> k !in SiteKeys
    ensures LoadSite(site.Save(base), FreshSite) == site.Fields()
  {
    SaveLoadRoundTrip(site, base, FreshSite);
  }
}
