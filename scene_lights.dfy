/**
 * Classification of light entities and the light record built from an entity's properties.
 */
module SceneLights {
  import opened Wrappers

  /** The entity classes this viewer treats as lights (light_environment, light_omni, ...). */
  datatype EntityType = Environment | Omni | Spot | Omni2 | Barn | Rect

  /** How a light is rendered. */
  datatype LightType = Directional | Point | SpotLight

  /** The enum member names, as Enum.TryParse matches them. */
  function NameOf(t: EntityType): string
  {
    match t
    case Environment => "Environment"
    case Omni => "Omni"
    case Spot => "Spot"
    case Omni2 => "Omni2"
    case Barn => "Barn"
    case Rect => "Rect"
  }

  const ALL_ENTITY_TYPES: seq<EntityType> := [Environment, Omni, Spot, Omni2, Barn, Rect]

  // ---------------------------------------------------------------------------------------
  // Ordinal case-insensitive comparison, on ASCII letters

  function Upper(c: char): char
  {
    if 'a' <= c <= 'z' then (c as int - 'a' as int + 'A' as int) as char else c
  }

  predicate EqualsIgnoreCase(a: string, b: string)
  {
    |a| == |b| && forall k :: 0 <= k < |a| ==> Upper(a[k]) == Upper(b[k])
  }

  predicate StartsWithIgnoreCase(s: string, prefix: string)
  {
    |prefix| <= |s| && EqualsIgnoreCase(s[..|prefix|], prefix)
  }

  const LIGHT_PREFIX: string := "light_"

  /** Enum.TryParse(s, ignoreCase: true) on the member names: the first member whose name matches. */
  function ParseEntityType(s: string): (r: Option<EntityType>)
    ensures r.Some? ==> EqualsIgnoreCase(s, NameOf(r.value))
    ensures r.None? ==> forall t: EntityType :: !EqualsIgnoreCase(s, NameOf(t))
  {
    AllEntityTypesListed();
    FirstMatch(s, ALL_ENTITY_TYPES)
  }

  lemma AllEntityTypesListed()
    ensures forall t: EntityType :: t in ALL_ENTITY_TYPES
  {
    forall t: EntityType
      ensures t in ALL_ENTITY_TYPES
    {
      var k := match t
        case Environment => 0 case Omni => 1 case Spot => 2
        case Omni2 => 3 case Barn => 4 case Rect => 5;
      assert ALL_ENTITY_TYPES[k] == t;
    }
  }

  function FirstMatch(s: string, candidates: seq<EntityType>): (r: Option<EntityType>)
    ensures r.Some? ==> r.value in candidates && EqualsIgnoreCase(s, NameOf(r.value))
    ensures r.None? ==> forall t :: t in candidates ==> !EqualsIgnoreCase(s, NameOf(t))
  {
    if |candidates| == 0 then None
    else if EqualsIgnoreCase(s, NameOf(candidates[0])) then Some(candidates[0])
    else
      var r := FirstMatch(s, candidates[1..]);
      assert forall k :: 1 <= k < |candidates| ==> candidates[k] == candidates[1..][k - 1];
      r
  }

  /**
   * IsAccepted: whether a classname names a light, and which. A classname without the prefix,
   * or whose rest is not a member name, is refused with the default Environment.
   */
  function IsAccepted(classname: string): (bool, EntityType)
  {
    if !StartsWithIgnoreCase(classname, LIGHT_PREFIX) then (false, Environment)
    else match ParseEntityType(classname[|LIGHT_PREFIX|..])
      case Some(t) => (true, t)
      case None => (false, Environment)
  }

  /** The `type switch` of FromEntityProperties; it covers every entity type. */
  function LightTypeOf(t: EntityType): LightType
  {
    match t
    case Environment => Directional
    case Omni => Point
    case Omni2 => Point
    case Barn => SpotLight
    case Rect => SpotLight
    case Spot => SpotLight
  }

  // ---------------------------------------------------------------------------------------
  // FromEntityProperties

  /** The entity's key/value properties, split by value type. */
  datatype Entity = Entity(ints: map<string, int>, floats: map<string, real>)

  /** GetPropertyUnchecked(key, default). */
  function IntProperty(e: Entity, key: string, default: int): int
  {
    if key in e.ints then e.ints[key] else default
  }

  function FloatProperty(e: Entity, key: string, default: real): real
  {
    if key in e.floats then e.floats[key] else default
  }

  /** The light record: the fields FromEntityProperties sets other than Color and Direction. */
  datatype SceneLight = SceneLight(
    stationaryLightIndex: int,
    entity: EntityType,
    lightType: LightType,
    brightness: real,
    range: real,
    fallOff: real)

  const MAX_BRIGHTNESS: real := 10.0

  /** The key the brightness is read from: "brightness" for the sun, "brightness_legacy" for the rest. */
  function BrightnessKey(t: EntityType): string
  {
    if t == Environment then "brightness" else "brightness_legacy"
  }

  function FromEntityProperties(t: EntityType, e: Entity): SceneLight
  {
    var brightness := FloatProperty(e, BrightnessKey(t), 1.0);
    SceneLight(
      IntProperty(e, "bakedshadowindex", -1),
      t,
      LightTypeOf(t),
      if brightness > MAX_BRIGHTNESS then 1.0 else brightness,
      FloatProperty(e, "range", 512.0),
      FloatProperty(e, "skirt", 0.1))
  }

  // ---------------------------------------------------------------------------------------
  // Properties

  /** No two member names are equal ignoring case, so the parse is the inverse of NameOf. */
  lemma ParseNameOf(t: EntityType, s: string)
    requires EqualsIgnoreCase(s, NameOf(t))
    ensures ParseEntityType(s) == Some(t)
  {
    var u := ParseEntityType(s).value;
    assert EqualsIgnoreCase(NameOf(u), NameOf(t)) by {
      forall k | 0 <= k < |s|
        ensures Upper(NameOf(u)[k]) == Upper(NameOf(t)[k])
      {
      }
    }
    if u != t {
      NamesDistinct(u, t);
    }
  }

  lemma NamesDistinct(u: EntityType, t: EntityType)
    requires u != t
    ensures !EqualsIgnoreCase(NameOf(u), NameOf(t))
  {
    var a, b := NameOf(u), NameOf(t);
    if |a| == |b| {
      if |a| == 4 {
        // Omni, Spot, Barn, Rect differ in their first letter.
        assert Upper(a[0]) != Upper(b[0]);
      } else if |a| == 5 {
        assert false;
      }
    }
  }

  /** IsAccepted says yes exactly for the prefix followed by a member name, and then names that member. */
  lemma IsAcceptedIff(classname: string)
    ensures IsAccepted(classname).0 <==>
      StartsWithIgnoreCase(classname, LIGHT_PREFIX) && exists t: EntityType :: EqualsIgnoreCase(classname[6..], NameOf(t))
    ensures IsAccepted(classname).0 ==> EqualsIgnoreCase(classname[6..], NameOf(IsAccepted(classname).1))
    ensures !IsAccepted(classname).0 ==> IsAccepted(classname).1 == Environment
  {
  }

  /** A classname without the prefix is refused. */
  lemma IsAcceptedWithoutPrefix(classname: string)
    requires !StartsWithIgnoreCase(classname, LIGHT_PREFIX)
    ensures IsAccepted(classname) == (false, Environment)
  {
  }

  /** Any spelling of the prefix followed by any spelling of a member name is accepted as that member. */
  lemma IsAcceptedRoundTrip(prefix: string, name: string, t: EntityType)
    requires EqualsIgnoreCase(prefix, LIGHT_PREFIX) && EqualsIgnoreCase(name, NameOf(t))
    ensures IsAccepted(prefix + name) == (true, t)
  {
    var s := prefix + name;
    assert s[..6] == prefix && s[6..] == name;
    ParseNameOf(t, name);
  }

  /** The mixed-case spelling is accepted. */
  lemma IsAcceptedExample()
    ensures IsAccepted("LIGHT_omni") == (true, Omni)
  {
    IsAcceptedRoundTrip("LIGHT_", "omni", Omni);
  }

  /** A suffix that is no member name is refused. */
  lemma IsAcceptedUnknownSuffix()
    ensures IsAccepted("light_ortho") == (false, Environment)
  {
    var rest := "light_ortho"[6..];
    assert rest == "ortho";
    forall t: EntityType ensures !EqualsIgnoreCase(rest, NameOf(t)) {
      if |NameOf(t)| == 5 {
        assert t == Omni2;
        assert Upper(rest[1]) != Upper(NameOf(t)[1]);
      }
    }
  }

  /** Only the sun is directional; Omni and Omni2 are point lights; Spot, Barn and Rect are spot lights. */
  lemma LightTypeOfCases(t: EntityType)
    ensures LightTypeOf(t) == Directional <==> t == Environment
    ensures LightTypeOf(t) == Point <==> t in {Omni, Omni2}
    ensures LightTypeOf(t) == SpotLight <==> t in {Spot, Barn, Rect}
  {
  }

  /**
   * The record keeps the entity type and its light type, never has a brightness above 10,
   * keeps the stored brightness up to 10 and replaces a larger one by 1.
   */
  lemma FromEntityPropertiesBrightness(t: EntityType, e: Entity)
    ensures var light := FromEntityProperties(t, e);
      && light.entity == t && light.lightType == LightTypeOf(t)
      && light.brightness <= MAX_BRIGHTNESS
      && (BrightnessKey(t) in e.floats && e.floats[BrightnessKey(t)] <= MAX_BRIGHTNESS ==> light.brightness == e.floats[BrightnessKey(t)])
      && (BrightnessKey(t) in e.floats && e.floats[BrightnessKey(t)] > MAX_BRIGHTNESS ==> light.brightness == 1.0)
  {
  }

  /** An entity without the properties gets the defaults. */
  lemma FromEntityPropertiesDefaults(t: EntityType)
    ensures var light := FromEntityProperties(t, Entity(map[], map[]));
      && light.stationaryLightIndex == -1 && light.brightness == 1.0
      && light.range == 512.0 && light.fallOff == 0.1
  {
  }

  /** The sun reads "brightness" and ignores "brightness_legacy"; every other light the other way round. */
  lemma FromEntityPropertiesBrightnessKey(t: EntityType, e: Entity, key: string, v: real)
    requires key == (if t == Environment then "brightness_legacy" else "brightness")
    ensures FromEntityProperties(t, e).brightness == FromEntityProperties(t, e.(floats := e.floats[key := v])).brightness
  {
  }
}
