/**
 * The gallery sound system: the shared `state` object and the operations
 * that read and update it. The scene, the network and the key events are
 * parameters of the methods; audio clips are `AudioHandle` objects.
 */
module GallerySound {
  import opened JsValues
  import opened Catalog
  import opened Exhibits

  /** The radius `handlePlayNearestCreatureSound` passes to the search. */
  const SoundRadius: nat := 7

  /** The only key code the key handler reacts to. */
  const TriggerKey: string := "KeyX"

  /** A preloaded clip: its source never changes; only its paused flag, its
      playback position and its `onended` listener do. */
  class AudioHandle {
    const sound: JsVal
    var paused: bool
    var currentTime: nat
    var onendedSet: bool

    /** `new Audio(...)`: a new clip is paused at the start, with no listener. */
    constructor (sound: JsVal)
      ensures this.sound == sound
      ensures paused && currentTime == 0 && !onendedSet
    {
      this.sound := sound;
      paused := true;
      currentTime := 0;
      onendedSet := false;
    }
  }

  class SoundSystem {
    var creatures: seq<Item>
    var audioMap: map<string, AudioHandle>
    var displays: seq<Display>
    var current: AudioHandle?
    /** A rig element set from outside, used instead of the scene's `#rig`. */
    var playerRig: Option<Element>
    /** Set from outside; only its truthiness matters. */
    var insideMuseum: JsVal
    /** Whether `init` has reached `setupKeyHandlers`. */
    var keyHandlerInstalled: bool
    /** Every clip this system has created. */
    ghost var Repr: set<AudioHandle>

    /** Every clip is known, at most the current clip is audible, the current
        clip is playing with its listener set, and no two keys share a clip. */
    ghost predicate Valid()
      reads this, Repr
    {
      && audioMap.Values <= Repr
      && (current != null ==> current in Repr && !current.paused && current.onendedSet)
      && (forall h :: h in Repr && h != current ==> h.paused)
      && (forall k1, k2 :: k1 in audioMap && k2 in audioMap && k1 != k2 ==> audioMap[k1] != audioMap[k2])
    }

    /** The clip `playCreatureSound` finds for a key, or null. */
    function HandleFor(key: string): (h: AudioHandle?)
      reads this
      ensures h != null <==> key in audioMap
      ensures key in audioMap ==> h == audioMap[key]
    {
      if key in audioMap then audioMap[key] else null
    }

    /** The exhibit a trigger would play: the nearest display within the
        radius of the player's position, if both exist. */
    function NearestToPlayer(sceneRig: Option<Element>): (r: Option<Display>)
      reads this
      ensures var pos := PlayerPosition(playerRig, sceneRig);
        r.None? <==> pos.None? || forall j :: 0 <= j < |displays| ==> !InRange(displays[j], pos.value, SoundRadius)
      ensures var pos := PlayerPosition(playerRig, sceneRig);
        forall i :: pos.Some? && IsNearestAt(displays, pos.value, SoundRadius, i) ==> r == Some(displays[i])
    {
      match PlayerPosition(playerRig, sceneRig)
      case None => None
      case Some(p) =>
        NearestIsNearest(displays, p, SoundRadius);
        Nearest(displays, p, SoundRadius)
    }

    /** The initial `state`. */
    constructor ()
      ensures Valid() && fresh(Repr)
      ensures creatures == [] && audioMap == map[] && displays == [] && current == null
      ensures playerRig == None && insideMuseum == Bool(true) && !keyHandlerInstalled
    {
      creatures := [];
      audioMap := map[];
      displays := [];
      current := null;
      playerRig := None;
      insideMuseum := Bool(true);
      keyHandlerInstalled := false;
      Repr := {};
    }

    /** An outside write to `state.insideMuseum`. */
    method SetInsideMuseum(v: JsVal)
      requires Valid()
      modifies this`insideMuseum
      ensures Valid() && insideMuseum == v
    {
      insideMuseum := v;
    }

    /** An outside write to `state.playerRig`. */
    method SetPlayerRig(rig: Option<Element>)
      requires Valid()
      modifies this`playerRig
      ensures Valid() && playerRig == rig
    {
      playerRig := rig;
    }

    /** `init`: fetch the catalog, snapshot the displays, then start
        listening for keys. */
    method Init(outcomes: seq<Outcome>, scene: map<string, Element>) returns (attempts: nat)
      requires Valid()
      modifies this
      ensures Valid() && keyHandlerInstalled
      ensures attempts == (if FirstOk(outcomes).Some? then FirstOk(outcomes).value + 1 else |outcomes|)
      ensures FirstOk(outcomes).Some? ==>
        && creatures == Normalize(outcomes[FirstOk(outcomes).value].payload)
        && audioMap.Keys == SoundTable(creatures).Keys
        && (forall k :: k in audioMap ==>
              && audioMap[k].sound == SoundTable(creatures)[k] && fresh(audioMap[k])
              && audioMap[k].paused && audioMap[k].currentTime == 0 && !audioMap[k].onendedSet)
      ensures FirstOk(outcomes).None? ==> creatures == old(creatures) && audioMap == old(audioMap)
      ensures displays == DisplaysFromScene(scene)
      ensures current == old(current) && playerRig == old(playerRig) && insideMuseum == old(insideMuseum)
      ensures old(Repr) <= Repr && fresh(Repr - old(Repr))
    {
      attempts := FetchCreaturesWithFallback(outcomes);
      PopulateDisplaysFromScene(scene);
      keyHandlerInstalled := true;
    }

    /** `fetchCreaturesWithFallback`: try the endpoints in order; the first
        ok, parsed body becomes the catalog (an array, or `[]` otherwise) and
        the sounds are reloaded; later endpoints are not tried. When every
        attempt fails nothing changes. `attempts` counts the fetches made. */
    method FetchCreaturesWithFallback(outcomes: seq<Outcome>) returns (attempts: nat)
      requires Valid()
      modifies this
      ensures Valid()
      ensures attempts == (if FirstOk(outcomes).Some? then FirstOk(outcomes).value + 1 else |outcomes|)
      ensures FirstOk(outcomes).Some? ==>
        && creatures == Normalize(outcomes[FirstOk(outcomes).value].payload)
        && audioMap.Keys == SoundTable(creatures).Keys
        && (forall k :: k in audioMap ==>
              && audioMap[k].sound == SoundTable(creatures)[k] && fresh(audioMap[k])
              && audioMap[k].paused && audioMap[k].currentTime == 0 && !audioMap[k].onendedSet)
      ensures FirstOk(outcomes).None? ==> unchanged(this)
      ensures displays == old(displays) && current == old(current) && keyHandlerInstalled == old(keyHandlerInstalled)
      ensures playerRig == old(playerRig) && insideMuseum == old(insideMuseum)
      ensures old(Repr) <= Repr && fresh(Repr - old(Repr))
    {
      FirstOkIsFirst(outcomes);
      var i := 0;
      while i < |outcomes|
        invariant 0 <= i <= |outcomes|
        invariant forall j :: 0 <= j < i ==> outcomes[j].Fail?
      {
        if outcomes[i].Ok? {
          creatures := Normalize(outcomes[i].payload);
          LoadDisplaySounds();
          attempts := i + 1;
          return;
        }
        i := i + 1;
      }
      attempts := |outcomes|;
    }

    /** `loadDisplaySounds`: clear the map, then give every playable record a
        new paused clip under `String(id)`; a later record with the same key
        replaces an earlier one. */
    method LoadDisplaySounds()
      requires Valid()
      modifies this`audioMap, this`Repr
      ensures Valid()
      ensures audioMap.Keys == SoundTable(creatures).Keys
      ensures forall k :: k in audioMap ==>
        && audioMap[k].sound == SoundTable(creatures)[k]
        && fresh(audioMap[k])
        && audioMap[k].paused && audioMap[k].currentTime == 0 && !audioMap[k].onendedSet
      ensures old(Repr) <= Repr && fresh(Repr - old(Repr))
    {
      audioMap := map[];
      var i := 0;
      while i < |creatures|
        invariant 0 <= i <= |creatures|
        invariant Valid()
        invariant audioMap.Keys == SoundTable(creatures[..i]).Keys
        invariant forall k :: k in audioMap ==>
          && audioMap[k].sound == SoundTable(creatures[..i])[k]
          && fresh(audioMap[k])
          && audioMap[k].paused && audioMap[k].currentTime == 0 && !audioMap[k].onendedSet
        invariant old(Repr) <= Repr && fresh(Repr - old(Repr))
      {
        var c := creatures[i];
        assert creatures[..i + 1][..i] == creatures[..i];
        if Playable(c) {
          var audio := new AudioHandle(c.sound);
          audioMap := audioMap[SoundKey(c) := audio];
          Repr := Repr + {audio};
        }
        i := i + 1;
      }
      assert creatures[..i] == creatures;
    }

    /** `populateDisplaysFromScene`, over a scene given as a map from element
        ids to elements. */
    method PopulateDisplaysFromScene(scene: map<string, Element>)
      requires Valid()
      modifies this`displays
      ensures Valid() && displays == DisplaysFromScene(scene)
    {
      displays := DisplaysFromScene(scene);
    }

    /** `findNearestExhibit`: scan the displays once, keeping the first of
        the closest ones within `maxDistance`. */
    method FindNearestExhibit(playerPos: Point, maxDistance: nat) returns (nearest: Option<Display>)
      ensures nearest == Nearest(displays, playerPos, maxDistance)
    {
      if |displays| == 0 {
        return None;
      }
      nearest := None;
      var nearestDist := Infinity;
      ghost var dists := Dists(displays, playerPos);
      ghost var best: Option<nat> := None;
      var i := 0;
      while i < |displays|
        invariant 0 <= i <= |displays|
        invariant best == ScanIndex(dists[..i], Sq(maxDistance))
        invariant best.Some? ==> best.value < i
        invariant nearest == (if best.Some? then Some(displays[best.value]) else None)
        invariant nearestDist == (if best.Some? then Finite(dists[best.value]) else Infinity)
      {
        var disp := displays[i];
        var dist := Dist2(disp.position, playerPos);
        assert dists[..i + 1][..i] == dists[..i];
        assert dists[..i + 1][i] == dists[i] == dist;
        if Below(dist, nearestDist) && InRange(disp, playerPos, maxDistance) {
          nearest := Some(disp);
          nearestDist := Finite(dist);
          best := Some(i);
        }
        i := i + 1;
      }
      assert dists[..i] == dists;
    }

    /** `stopCurrentCreatureSound`: pause the current clip, rewind it and
        forget it; nothing happens when there is none. */
    method StopCurrentCreatureSound()
      requires Valid()
      modifies this`current, current
      ensures Valid() && current == null
      ensures old(current) == null ==> unchanged(this)
      ensures old(current) != null ==> old(current).paused && old(current).currentTime == 0
      ensures old(current) != null ==> old(current).onendedSet == old(current.onendedSet)
    {
      if current != null {
        current.paused := true;
        current.currentTime := 0;
        current := null;
      }
    }

    /** `playCreatureSound(id)`: stop the current clip, then, if `String(id)`
        has a clip, rewind it, start it, make it current and set its
        listener; otherwise stay silent. */
    method PlayCreatureSound(id: JsVal)
      requires Valid()
      modifies this`current, current, audioMap.Values
      ensures Valid()
      ensures current == HandleFor(ToJsString(id))
      ensures current != null ==> current.currentTime == 0 && !current.paused && current.onendedSet
      ensures old(current) != null && old(current) != current ==>
        old(current).paused && old(current).currentTime == 0 && old(current).onendedSet == old(current.onendedSet)
      ensures forall h :: h in old(Repr) && h != current && h != old(current) ==> unchanged(h)
    {
      StopCurrentCreatureSound();
      var key := ToJsString(id);
      if key !in audioMap {
        return;
      }
      var audio := audioMap[key];
      audio.currentTime := 0;
      audio.paused := false;
      current := audio;
      audio.onendedSet := true;
    }

    /** Clip `h` reaches its end: it stops, and its `onended` listener, if
        `play` set one, clears the current clip only when that is still `h`.
        A late completion of a replaced clip leaves the newer one current. */
    method Ended(h: AudioHandle)
      requires Valid()
      modifies this`current, h
      ensures Valid() && h.paused
      ensures current == (if old(current) == h then null else old(current))
      ensures h.currentTime == old(h.currentTime) && h.onendedSet == old(h.onendedSet)
    {
      h.paused := true;
      if h.onendedSet {
        if current == h {
          current := null;
        }
      }
    }

    /** `handlePlayNearestCreatureSound`: find the player, then the nearest
        exhibit within the radius, and play it; without either nothing
        changes. */
    method HandlePlayNearestCreatureSound(sceneRig: Option<Element>)
      requires Valid()
      modifies this`current, current, audioMap.Values
      ensures Valid()
      ensures var hit := old(NearestToPlayer(sceneRig));
        if hit.Some? then
          && current == HandleFor(hit.value.id)
          && (current != null ==> current.currentTime == 0 && !current.paused)
          && (old(current) != null && old(current) != current ==>
                old(current).paused && old(current).currentTime == 0 && old(current).onendedSet == old(current.onendedSet))
          && (forall h :: h in old(Repr) && h != current && h != old(current) ==> unchanged(h))
        else current == old(current) && unchanged(Repr)
    {
      var playerPos := PlayerPosition(playerRig, sceneRig);
      if playerPos.None? {
        return;
      }
      var nearest := FindNearestExhibit(playerPos.value, SoundRadius);
      if nearest.None? {
        return;
      }
      PlayCreatureSound(Str(nearest.value.id));
    }

    /** The `keydown` listener: ignored until installed, for any other key
        and while outside the museum; otherwise plays the nearest exhibit. */
    method KeyDown(code: string, sceneRig: Option<Element>)
      requires Valid()
      modifies this`current, current, audioMap.Values
      ensures Valid()
      ensures var hit := old(NearestToPlayer(sceneRig));
        var fires := old(keyHandlerInstalled) && code == TriggerKey && old(Truthy(insideMuseum)) && hit.Some?;
        if fires then
          && current == HandleFor(hit.value.id)
          && (current != null ==> current.currentTime == 0 && !current.paused)
          && (old(current) != null && old(current) != current ==>
                old(current).paused && old(current).currentTime == 0 && old(current).onendedSet == old(current.onendedSet))
          && (forall h :: h in old(Repr) && h != current && h != old(current) ==> unchanged(h))
        else current == old(current) && unchanged(Repr)
    {
      if !keyHandlerInstalled {
        return;
      }
      if code != TriggerKey {
        return;
      }
      if !Truthy(insideMuseum) {
        return;
      }
      HandlePlayNearestCreatureSound(sceneRig);
    }
  }

  /** An end-to-end scenario: one catalog record for `artwork1` with sound
      `lion.mp3`, its exhibit 4 units from the player, and a KeyX press. */
  method LionScenario() {
    var sys := new SoundSystem();
    var record := Obj(Str("artwork1"), Str("lion.mp3"));
    var outcomes := [Fail, Ok(Array([record]))];
    var scene := map["artwork1" := Element(Some(Point(4, 0, 0)))];
    var attempts := sys.Init(outcomes, scene);
    assert FirstOk(outcomes) == Some(1);
    assert attempts == 2;
    assert [record][..0] == [];
    assert SoundTable([record]) == map["artwork1" := Str("lion.mp3")];
    var rig := Element(Some(Point(0, 0, 0)));
    var s := Lookups(scene);
    assert s[0] == Some(Display("artwork1", Point(4, 0, 0)));
    assert forall k :: 1 <= k < 7 ==> s[k] == None;
    assert Compact(s[6..]) == [];
    assert Compact(s[5..]) == [] by { assert s[5..][0] == None && s[5..][1..] == s[6..]; }
    assert Compact(s[4..]) == [] by { assert s[4..][0] == None && s[4..][1..] == s[5..]; }
    assert Compact(s[3..]) == [] by { assert s[3..][0] == None && s[3..][1..] == s[4..]; }
    assert Compact(s[2..]) == [] by { assert s[2..][0] == None && s[2..][1..] == s[3..]; }
    assert Compact(s[1..]) == [] by { assert s[1..][0] == None && s[1..][1..] == s[2..]; }
    assert sys.displays == [Display("artwork1", Point(4, 0, 0))];
    assert sys.NearestToPlayer(Some(rig)) == Some(Display("artwork1", Point(4, 0, 0)));
    sys.KeyDown("KeyX", Some(rig));
    assert sys.current != null && sys.current.sound == Str("lion.mp3") && !sys.current.paused;
  }
}
