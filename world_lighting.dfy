/**
 * The per-world lighting bookkeeping: the light-probe and environment-map lists with their
 * handshake dictionaries, and the binning of baked lights into the lighting constants.
 */
module WorldLighting {
  import opened Wrappers
  import opened SceneLights
  import opened LightBinning

  datatype TextureTarget = TextureCubeMapArray | TextureCubeMap | OtherTarget(code: nat)

  /** A GPU texture, known by an identity and its target. */
  datatype RenderTexture = RenderTexture(id: nat, target: TextureTarget)

  datatype SceneEnvMap = SceneEnvMap(id: nat, texture: RenderTexture, handShake: int)

  datatype SceneLightProbe = SceneLightProbe(
    id: nat,
    irradiance: Option<RenderTexture>,
    directLightIndices: Option<RenderTexture>,
    directLightScalars: Option<RenderTexture>,
    directLightShadows: Option<RenderTexture>,
    handShake: int)

  datatype CubemapType = NoCubemaps | IndividualCubemaps | CubemapArray

  datatype LightingError = DuplicateHandshake(handShake: int)  // ArgumentException from Dictionary.Add

  const ENVIRONMENT_MAP_KEY: string := "g_tEnvironmentMap"

  /** The cubemap type chosen from the first environment map's texture target. */
  function CubemapTypeOf(t: TextureTarget): CubemapType
  {
    match t
    case TextureCubeMapArray => CubemapArray
    case TextureCubeMap => IndividualCubemaps
    case OtherTarget(_) => NoCubemaps
  }

  /** The switch of AddProbe: the first matching case decides. */
  function ValidTextureSet(version: int, p: SceneLightProbe): bool
  {
    if p.irradiance.None? then false
    else if version == 1 && (p.directLightIndices.None? || p.directLightScalars.None?) then false
    else if version == 2 && p.directLightShadows.None? then false
    else true
  }

  /** HasValidLightProbes after adding p to a list of count probes. */
  function ProbeFlag(flag: bool, count: nat, version: int, p: SceneLightProbe): bool
  {
    (count == 0 || flag) && ValidTextureSet(version, p)
  }

  /** HasValidLightProbes after adding the probes ps, one at a time, to a list of count probes. */
  function ProbeFlagAfter(flag: bool, count: nat, version: int, ps: seq<SceneLightProbe>): bool
    decreases |ps|
  {
    if |ps| == 0 then flag
    else ProbeFlagAfter(ProbeFlag(flag, count, version, ps[0]), count + 1, version, ps[1..])
  }

  predicate AllValid(version: int, ps: seq<SceneLightProbe>)
  {
    forall k :: 0 <= k < |ps| ==> ValidTextureSet(version, ps[k])
  }

  /** `handshakes.Add(handShake, value)` when handShake is positive. */
  function AddHandshake<T>(handshakes: map<int, T>, handShake: int, value: T): Result<map<int, T>, LightingError>
  {
    if handShake <= 0 then Success(handshakes)
    else if handShake in handshakes then Failure(DuplicateHandshake(handShake))
    else Success(handshakes[handShake := value])
  }

  /** `Lightmaps.TryAdd(key, texture)`. */
  function TryAdd(lightmaps: map<string, RenderTexture>, key: string, texture: RenderTexture): map<string, RenderTexture>
  {
    if key in lightmaps then lightmaps else lightmaps[key := texture]
  }

  // ---------------------------------------------------------------------------------------
  // Properties of the reference definitions

  /**
   * A probe is valid iff it has an irradiance texture, both direct-light textures under
   * game version 1, and the direct-light shadows under version 2.
   */
  lemma ValidTextureSetIff(version: int, p: SceneLightProbe)
    ensures ValidTextureSet(version, p) <==>
      && p.irradiance.Some?
      && (version == 1 ==> p.directLightIndices.Some? && p.directLightScalars.Some?)
      && (version == 2 ==> p.directLightShadows.Some?)
  {
  }

  /** Starting from a non-empty list, the flag is the old flag and the validity of every added probe. */
  lemma {:induction false} ProbeFlagConjunction(flag: bool, count: nat, version: int, ps: seq<SceneLightProbe>)
    requires count > 0
    ensures ProbeFlagAfter(flag, count, version, ps) == (flag && AllValid(version, ps))
    decreases |ps|
  {
    if |ps| > 0 {
      ProbeFlagConjunction(ProbeFlag(flag, count, version, ps[0]), count + 1, version, ps[1..]);
      assert AllValid(version, ps) == (ValidTextureSet(version, ps[0]) && AllValid(version, ps[1..])) by {
        assert forall k :: 1 <= k < |ps| ==> ps[k] == ps[1..][k - 1];
      }
    }
  }

  /** Starting from an empty list, HasValidLightProbes says whether every added probe is valid. */
  lemma ProbeFlagFromEmpty(flag: bool, version: int, ps: seq<SceneLightProbe>)
    requires |ps| > 0
    ensures ProbeFlagAfter(flag, 0, version, ps) == AllValid(version, ps)
  {
    ProbeFlagConjunction(ProbeFlag(flag, 0, version, ps[0]), 1, version, ps[1..]);
    assert forall k :: 1 <= k < |ps| ==> ps[k] == ps[1..][k - 1];
  }

  /**
   * A positive handshake not yet present is added and nothing else changes; a present one is
   * an error; a non-positive one adds nothing.
   */
  lemma AddHandshakeProperties<T>(handshakes: map<int, T>, handShake: int, value: T)
    ensures var r := AddHandshake(handshakes, handShake, value);
      && (r.Success? <==> handShake <= 0 || handShake !in handshakes)
      && (r.Success? ==> r.value.Keys == handshakes.Keys + (if handShake > 0 then {handShake} else {}))
      && (r.Success? && handShake > 0 ==> r.value[handShake] == value)
      && (r.Success? ==> forall h :: h in handshakes ==> r.value[h] == handshakes[h])
  {
  }

  /** TryAdd never overwrites, and adds the key when it is missing. */
  lemma TryAddKeeps(lightmaps: map<string, RenderTexture>, key: string, texture: RenderTexture)
    ensures var r := TryAdd(lightmaps, key, texture);
      && r.Keys == lightmaps.Keys + {key}
      && (forall k :: k in lightmaps ==> r[k] == lightmaps[k])
      && (key !in lightmaps ==> r[key] == texture)
  {
  }

  /** Writing the next light into the first slot after the stored ones extends the stored prefix. */
  lemma SlotsStep<T>(stored: seq<T>, initial: seq<T>, light: T)
    requires |stored| < |initial|
    ensures (stored + initial[|stored|..])[|stored| := light] == (stored + [light]) + initial[|stored| + 1..]
  {
  }

  /** Only a cube-map array target gives the array type, and only a cube-map target the individual one. */
  lemma CubemapTypeOfIff(t: TextureTarget)
    ensures CubemapTypeOf(t) == CubemapArray <==> t == TextureCubeMapArray
    ensures CubemapTypeOf(t) == IndividualCubemaps <==> t == TextureCubeMap
  {
  }

  // ---------------------------------------------------------------------------------------
  // The lighting info object

  class WorldLightingInfo {
    /** LightingConstants.MAX_LIGHTS. */
    const maxLights: nat
    /** The per-light slot arrays of LightingData, one entry per slot. */
    const lightSlots: array<SceneLight>
    /** LightingData.NumLightsBakedShadowIndex. */
    const numLightsBakedShadowIndex: array<int>

    var lightmaps: map<string, RenderTexture>
    var lightProbes: seq<SceneLightProbe>
    var envMaps: seq<SceneEnvMap>
    var envMapHandshakes: map<int, SceneEnvMap>
    var probeHandshakes: map<int, SceneLightProbe>
    var hasValidLightProbes: bool
    var lightmapGameVersionNumber: int
    var cubemapType: CubemapType

    predicate Valid()
      reads this
    {
      lightSlots.Length == maxLights && numLightsBakedShadowIndex.Length == SHADOW_GROUPS
    }

    /** HasValidLightProbes agrees with the probes added so far. */
    predicate ProbesConsistent()
      reads this
    {
      |lightProbes| > 0 ==> hasValidLightProbes == AllValid(lightmapGameVersionNumber, lightProbes)
    }

    /** Every handshake names an added item that carries it. */
    predicate HandshakesConsistent()
      reads this
    {
      && (forall h :: h in probeHandshakes ==> h > 0 && probeHandshakes[h].handShake == h && probeHandshakes[h] in lightProbes)
      && (forall h :: h in envMapHandshakes ==> h > 0 && envMapHandshakes[h].handShake == h && envMapHandshakes[h] in envMaps)
    }

    /** The cubemap type is the one the first environment map chose. */
    predicate CubemapConsistent()
      reads this
    {
      |envMaps| > 0 ==> cubemapType == CubemapTypeOf(envMaps[0].texture.target)
    }

    constructor (maxLights: nat, blank: SceneLight, lightmapGameVersionNumber: int)
      ensures Valid() && ProbesConsistent() && HandshakesConsistent() && CubemapConsistent()
      ensures this.maxLights == maxLights && this.lightmapGameVersionNumber == lightmapGameVersionNumber
      ensures fresh(lightSlots) && fresh(numLightsBakedShadowIndex)
      ensures lightSlots[..] == seq(maxLights, _ => blank)
      ensures numLightsBakedShadowIndex[..] == seq(SHADOW_GROUPS, _ => 0)
      ensures lightmaps == map[] && lightProbes == [] && envMaps == []
      ensures envMapHandshakes == map[] && probeHandshakes == map[]
      ensures !hasValidLightProbes && cubemapType == NoCubemaps
    {
      this.maxLights := maxLights;
      this.lightmapGameVersionNumber := lightmapGameVersionNumber;
      lightSlots := new SceneLight[maxLights](_ => blank);
      numLightsBakedShadowIndex := new int[SHADOW_GROUPS](_ => 0);
      lightmaps, lightProbes, envMaps := map[], [], [];
      envMapHandshakes, probeHandshakes := map[], map[];
      hasValidLightProbes := false;
      cubemapType := NoCubemaps;
    }

    /** AddEnvironmentMap: the first map decides the cubemap type; a target mismatch later is only logged. */
    method AddEnvironmentMap(envmap: SceneEnvMap) returns (res: Outcome<LightingError>)
      modifies this`cubemapType, this`lightmaps, this`envMaps, this`envMapHandshakes
      ensures envMaps == old(envMaps) + [envmap]
      ensures cubemapType == if |old(envMaps)| == 0 then CubemapTypeOf(envmap.texture.target) else old(cubemapType)
      ensures lightmaps ==
        if |old(envMaps)| == 0 && cubemapType == CubemapArray then TryAdd(old(lightmaps), ENVIRONMENT_MAP_KEY, envmap.texture)
        else old(lightmaps)
      ensures var added := AddHandshake(old(envMapHandshakes), envmap.handShake, envmap);
        && (added.Failure? ==> res == Fail(added.error) && envMapHandshakes == old(envMapHandshakes))
        && (added.Success? ==> res == Pass && envMapHandshakes == added.value)
      ensures old(CubemapConsistent()) ==> CubemapConsistent()
      ensures old(HandshakesConsistent()) ==> HandshakesConsistent()
    {
      if |envMaps| == 0 {
        cubemapType := CubemapTypeOf(envmap.texture.target);
        if cubemapType == CubemapArray {
          lightmaps := TryAdd(lightmaps, ENVIRONMENT_MAP_KEY, envmap.texture);
        }
      }
      envMaps := envMaps + [envmap];
      res := Pass;
      if envmap.handShake > 0 {
        if envmap.handShake in envMapHandshakes {
          return Fail(DuplicateHandshake(envmap.handShake));
        }
        envMapHandshakes := envMapHandshakes[envmap.handShake := envmap];
      }
    }

    /** AddProbe: update HasValidLightProbes, append, register the handshake. */
    method AddProbe(probe: SceneLightProbe) returns (res: Outcome<LightingError>)
      modifies this`hasValidLightProbes, this`lightProbes, this`probeHandshakes
      ensures hasValidLightProbes == ProbeFlag(old(hasValidLightProbes), |old(lightProbes)|, lightmapGameVersionNumber, probe)
      ensures lightProbes == old(lightProbes) + [probe]
      ensures var added := AddHandshake(old(probeHandshakes), probe.handShake, probe);
        && (added.Failure? ==> res == Fail(added.error) && probeHandshakes == old(probeHandshakes))
        && (added.Success? ==> res == Pass && probeHandshakes == added.value)
      ensures old(ProbesConsistent()) ==> ProbesConsistent()
      ensures old(HandshakesConsistent()) ==> HandshakesConsistent()
    {
      var validTextureSet := ValidTextureSet(lightmapGameVersionNumber, probe);
      hasValidLightProbes := (|lightProbes| == 0 || hasValidLightProbes) && validTextureSet;
      ghost var before := lightProbes;
      lightProbes := lightProbes + [probe];
      assert AllValid(lightmapGameVersionNumber, lightProbes) == (AllValid(lightmapGameVersionNumber, before) && validTextureSet) by {
        assert forall k :: 0 <= k < |before| ==> lightProbes[k] == before[k];
        assert lightProbes[|before|] == probe;
      }
      res := Pass;
      if probe.handShake > 0 {
        if probe.handShake in probeHandshakes {
          return Fail(DuplicateHandshake(probe.handShake));
        }
        probeHandshakes := probeHandshakes[probe.handShake := probe];
      }
    }

    /** One slot write. */
    method SetSlot(k: nat, light: SceneLight)
      requires Valid() && k < maxLights
      modifies lightSlots
      ensures lightSlots[..] == old(lightSlots[..])[k := light]
      ensures numLightsBakedShadowIndex[..] == old(numLightsBakedShadowIndex[..])
    {
      lightSlots[k] := light;
    }

    /** One table write. */
    method SetShadowCount(group: nat, count: int)
      requires Valid() && group < SHADOW_GROUPS
      modifies numLightsBakedShadowIndex
      ensures numLightsBakedShadowIndex[..] == old(numLightsBakedShadowIndex[..])[group := count]
      ensures lightSlots[..] == old(lightSlots[..])
    {
      numLightsBakedShadowIndex[group] := count;
    }

    /**
     * StoreLightMappedLights_V1: the baked lights in index order fill slots 0, 1, ... up to
     * MAX_LIGHTS, skipping a light whose index is below the next slot; entry 0 of the table
     * gets the number stored.
     */
    method StoreLightMappedLightsV1(lights: seq<SceneLight>)
      requires Valid()
      modifies lightSlots, numLightsBakedShadowIndex
      ensures var stored := StoredV1(lights, maxLights);
        && |stored| <= maxLights
        && lightSlots[..] == stored + old(lightSlots[..])[|stored|..]
        && numLightsBakedShadowIndex[..] == old(numLightsBakedShadowIndex[..])[0 := |stored|]
    {
      var ordered := Filter(SortByIndex(lights), IsBaked);
      var count := FillSlotsV1(ordered);
      numLightsBakedShadowIndex[0] := count;
    }

    /** The loop of StoreLightMappedLights_V1 over the sorted baked lights; returns how many it stored. */
    method FillSlotsV1(ordered: seq<SceneLight>) returns (count: nat)
      requires Valid()
      modifies lightSlots
      ensures var stored := BinV1(ordered, 0, maxLights);
        && count == |stored| <= maxLights
        && lightSlots[..] == stored + old(lightSlots[..])[count..]
    {
      ghost var stored := BinV1(ordered, 0, maxLights);
      ghost var initial := lightSlots[..];
      BinV1Length(ordered, 0, maxLights);
      count := 0;
      var i := 0;
      while i < |ordered|
        invariant 0 <= i <= |ordered| && count <= maxLights == lightSlots.Length
        invariant BinV1Progress(ordered, i, count, maxLights, stored)
        invariant lightSlots[..] == stored[..count] + initial[count..]
      {
        if count >= maxLights {
          break;
        }
        var light := ordered[i];
        BinV1ProgressStep(ordered, i, count, maxLights, stored);
        if Index(light) < count {
          i := i + 1;
          continue;
        }
        SlotsStep(stored[..count], initial, light);
        assert stored[..count] + [light] == stored[..count + 1];
        SetSlot(count, light);
        count := count + 1;
        i := i + 1;
      }
      BinV1ProgressDone(ordered, i, count, maxLights, stored);
    }

    /**
     * StoreLightMappedLights_V2: the lights of shadow index 0..3 in index order fill slots 0,
     * 1, ... up to MAX_LIGHTS; each shadow index that is left, and finally the last one, gets
     * the number stored so far in the table.
     */
    method StoreLightMappedLightsV2(lights: seq<SceneLight>)
      requires Valid()
      modifies lightSlots, numLightsBakedShadowIndex
      ensures var stored := StoredV2(lights, maxLights);
        && |stored| <= maxLights
        && lightSlots[..] == stored + old(lightSlots[..])[|stored|..]
        && numLightsBakedShadowIndex[..] == ShadowTableV2(stored, old(numLightsBakedShadowIndex[..]))
    {
      var sorted := SortByIndex(lights);
      ghost var previous := numLightsBakedShadowIndex[..];
      var totalCount, currentShadowIndex := FillSlotsV2(sorted);
      TableSoFarFinish(numLightsBakedShadowIndex[..], StoredV2(lights, maxLights), currentShadowIndex, previous);
      numLightsBakedShadowIndex[currentShadowIndex] := totalCount;
    }

    /**
     * The loop of StoreLightMappedLights_V2 over the lights sorted by index; returns how many
     * it stored and the shadow index it ended on, whose table entry is still to be written.
     */
    method FillSlotsV2(sorted: seq<SceneLight>) returns (totalCount: nat, currentShadowIndex: nat)
      requires Valid() && SortedByIndex(sorted)
      modifies lightSlots, numLightsBakedShadowIndex
      ensures var stored := Take(Filter(sorted, InShadowRange), maxLights);
        && totalCount == |stored| <= maxLights
        && lightSlots[..] == stored + old(lightSlots[..])[totalCount..]
        && TableSoFar(numLightsBakedShadowIndex[..], stored, currentShadowIndex, old(numLightsBakedShadowIndex[..]))
        && GroupedSoFar(stored, currentShadowIndex)
    {
      ghost var previous := numLightsBakedShadowIndex[..];
      ghost var stored: seq<SceneLight> := [];
      ghost var initial := lightSlots[..];
      currentShadowIndex := 0;
      totalCount := 0;
      var i := 0;
      while i < |sorted|
        invariant 0 <= i <= |sorted| && totalCount <= maxLights == lightSlots.Length
        invariant numLightsBakedShadowIndex.Length == SHADOW_GROUPS
        invariant stored == Filter(sorted[..i], InShadowRange) && |stored| == totalCount
        invariant lightSlots[..] == stored + initial[totalCount..]
        invariant TableSoFar(numLightsBakedShadowIndex[..], stored, currentShadowIndex, previous)
        invariant GroupedSoFar(stored, currentShadowIndex)
        invariant forall j :: i <= j < |sorted| && 0 <= Index(sorted[j]) ==> currentShadowIndex <= Index(sorted[j])
      {
        if totalCount >= maxLights {
          break;
        }
        var light := sorted[i];
        FilterStep(sorted, i, InShadowRange);
        if Index(light) < 0 || Index(light) > 3 {
          i := i + 1;
          continue;
        }
        TableSoFarStore(numLightsBakedShadowIndex[..], stored, light, currentShadowIndex, previous);
        if currentShadowIndex != Index(light) {
          SetShadowCount(currentShadowIndex, totalCount);
          currentShadowIndex := Index(light);
        }
        SlotsStep(stored, initial, light);
        SetSlot(totalCount, light);
        stored := stored + [light];
        totalCount := totalCount + 1;
        i := i + 1;
      }
      TakeFilterPrefix(sorted, i, InShadowRange, maxLights);
    }
  }
}
