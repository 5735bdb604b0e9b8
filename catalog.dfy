/**
 * The creature catalog: the records fetched from the endpoints, the outcome
 * of each endpoint attempt, and the key-to-sound table that the audio map
 * is rebuilt from.
 */
module Catalog {
  import opened JsValues

  /** One element of the fetched array: an object with `id` and `sound`
      fields (a missing field is `Undefined`), or anything that is not an
      object (`null`, a number, a string, ...). */
  datatype Item =
    | Obj(id: JsVal, sound: JsVal)
    | Prim(v: JsVal)

  /** The parsed body of a successful response. */
  datatype Payload = Array(items: seq<Item>) | NotArray

  /** What one endpoint attempt gives: a failure (network error, a non-ok
      status or a body that does not parse), or an ok, parsed body. */
  datatype Outcome = Fail | Ok(payload: Payload)

  /** `Array.isArray(data) ? data : []` */
  function Normalize(p: Payload): seq<Item>
  {
    match p
    case Array(items) => items
    case NotArray => []
  }

  /** A record survives `if (!c || !c.id || !c.sound) return;`. A value that
      is not an object has no `id` field, so it never survives. */
  predicate Playable(c: Item) {
    c.Obj? && Truthy(c.id) && Truthy(c.sound)
  }

  /** The audio-map key of a record: `String(c.id)`. */
  function SoundKey(c: Item): string
    requires c.Obj?
  {
    ToJsString(c.id)
  }

  /** The key-to-sound table that inserting the records of `cs` in order,
      skipping the unplayable ones, leaves in an empty map. */
  function SoundTable(cs: seq<Item>): (m: map<string, JsVal>)
    ensures forall k :: k in m ==> Truthy(m[k])
    decreases |cs|
  {
    if cs == [] then map[]
    else
      var m := SoundTable(cs[..|cs| - 1]);
      var c := cs[|cs| - 1];
      if Playable(c) then m[SoundKey(c) := c.sound] else m
  }

  /** The keys of the table are exactly the keys of the playable records. */
  lemma {:induction false} SoundTableKeys(cs: seq<Item>, k: string)
    ensures k in SoundTable(cs) <==>
            exists i :: 0 <= i < |cs| && Playable(cs[i]) && SoundKey(cs[i]) == k
    decreases |cs|
  {
    if cs != [] {
      var init := cs[..|cs| - 1];
      SoundTableKeys(init, k);
      if k in SoundTable(init) {
        var i :| 0 <= i < |init| && Playable(init[i]) && SoundKey(init[i]) == k;
        assert cs[i] == init[i];
      }
      if exists i :: 0 <= i < |cs| && Playable(cs[i]) && SoundKey(cs[i]) == k {
        var i :| 0 <= i < |cs| && Playable(cs[i]) && SoundKey(cs[i]) == k;
        if i < |cs| - 1 {
          assert init[i] == cs[i];
        }
      }
    }
  }

  /** When several playable records share a key, the last one's sound wins. */
  lemma {:induction false} SoundTableLastWins(cs: seq<Item>, j: nat)
    requires j < |cs| && Playable(cs[j])
    requires forall i :: j < i < |cs| && Playable(cs[i]) ==> SoundKey(cs[i]) != SoundKey(cs[j])
    ensures SoundKey(cs[j]) in SoundTable(cs)
    ensures SoundTable(cs)[SoundKey(cs[j])] == cs[j].sound
    decreases |cs|
  {
    if j < |cs| - 1 {
      var init := cs[..|cs| - 1];
      assert init[j] == cs[j];
      forall i | j < i < |init| && Playable(init[i])
        ensures SoundKey(init[i]) != SoundKey(init[j])
      {
        assert init[i] == cs[i];
      }
      SoundTableLastWins(init, j);
    }
  }

  /** The index of the first endpoint whose attempt succeeded. */
  function FirstOk(os: seq<Outcome>): (r: Option<nat>)
    ensures r.Some? ==> r.value < |os| && os[r.value].Ok?
  {
    if os == [] then None
    else if os[0].Ok? then Some(0)
    else match FirstOk(os[1..])
      case None => None
      case Some(i) => Some(i + 1)
  }

  /** No endpoint succeeds before the first success, and there is none
      exactly when every attempt fails. */
  lemma {:induction false} FirstOkIsFirst(os: seq<Outcome>)
    ensures FirstOk(os).None? <==> forall i :: 0 <= i < |os| ==> os[i].Fail?
    ensures FirstOk(os).Some? ==> forall i :: 0 <= i < FirstOk(os).value ==> os[i].Fail?
  {
    if os != [] && os[0].Fail? {
      FirstOkIsFirst(os[1..]);
      assert forall i :: 1 <= i < |os| ==> os[i] == os[1..][i - 1];
    }
  }
}
