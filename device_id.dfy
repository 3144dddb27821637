/** `src/lib/deviceId.ts`: a per-browser identifier kept in one slot of local
    storage, created on first use and read back afterwards. The entropy the
    source draws itself (`crypto.randomUUID()`, `Date.now()`, `Math.random()`)
    is passed in. */
module DeviceId {
  import opened Storage

  /** The local-storage key of the slot. */
  const DEVICE_ID_KEY := "recommendation_device_id"

  /** The origin's local storage: string values under string keys. */
  class LocalStorage {
    var items: map<string, string>

    constructor ()
      ensures items == map[]
    {
      items := map[];
    }
  }

  /** What the generator has to hand: the result of `crypto.randomUUID()` when
      that API exists (`None` when it does not), `Date.now()`, and the string
      `Math.random().toString(36)`. */
  datatype Entropy = Entropy(uuid: Option<string>, now: nat, random36: string)

  /** `randomUUID` answers a 36-character string. */
  ghost predicate WellFormed(e: Entropy) {
    e.uuid.Some? ==> |e.uuid.value| == 36
  }

  /** The decimal digit for `d`. */
  function Digit(d: nat): char
    requires d < 10
  {
    "0123456789"[d]
  }

  /** The decimal numeral of `n`, as a template literal prints a safe
      integer. */
  function Decimal(n: nat): (s: string)
    ensures |s| > 0
    ensures forall i :: 0 <= i < |s| ==> '0' <= s[i] <= '9'
  {
    if n < 10 then [Digit(n)] else Decimal(n / 10) + [Digit(n % 10)]
  }

  /** `s.slice(from, to)` for `0 <= from <= to`: indices past the end are
      clamped to the length. */
  function Slice(s: string, from: nat, to: nat): (r: string)
    requires from <= to
    ensures to <= |s| ==> r == s[from..to] && |r| == to - from
    ensures from <= |s| < to ==> r == s[from..]
    ensures |s| <= from ==> r == ""
  {
    var lo := if from <= |s| then from else |s|;
    var hi := if to <= |s| then to else |s|;
    s[lo..hi]
  }

  /** The identifier a first call generates. */
  function FreshId(e: Entropy): (id: string)
    requires WellFormed(e)
    ensures id != ""
    ensures e.uuid.Some? ==> id == e.uuid.value
    ensures e.uuid.None? ==> |id| >= 6 && id[..4] == "dev_"
  {
    match e.uuid
    case Some(uuid) => uuid
    case None => "dev_" + Decimal(e.now) + "_" + Slice(e.random36, 2, 11)
  }

  /** `localStorage.getItem(key)`: the stored value, or `None` (`null`). */
  function GetItem(items: map<string, string>, key: string): Option<string> {
    if key in items then Some(items[key]) else None
  }

  /** The identifier `getDeviceId()` returns on `items`: a non-empty stored
      value as it is, a fresh one otherwise (`!id` holds for `null` and ""). */
  function ReadOrCreate(items: map<string, string>, e: Entropy): (id: string)
    requires WellFormed(e)
    ensures id != ""
    ensures GetItem(items, DEVICE_ID_KEY).Some? && GetItem(items, DEVICE_ID_KEY).value != "" ==>
      id == items[DEVICE_ID_KEY]
  {
    match GetItem(items, DEVICE_ID_KEY)
    case Some(stored) => if stored != "" then stored else FreshId(e)
    case None => FreshId(e)
  }

  /** The slot after `getDeviceId()`: written only when it was missing or empty. */
  function Stored(items: map<string, string>, e: Entropy): (items': map<string, string>)
    requires WellFormed(e)
    ensures DEVICE_ID_KEY in items' && items'[DEVICE_ID_KEY] == ReadOrCreate(items, e)
    ensures forall k :: k != DEVICE_ID_KEY ==> GetItem(items', k) == GetItem(items, k)
  {
    var id := ReadOrCreate(items, e);
    if DEVICE_ID_KEY in items && items[DEVICE_ID_KEY] != "" then items else items[DEVICE_ID_KEY := id]
  }

  /** Idempotence: a second call returns what the first returned, whatever
      entropy it is handed, and writes nothing. */
  lemma SecondCallSame(items: map<string, string>, e1: Entropy, e2: Entropy)
    requires WellFormed(e1) && WellFormed(e2)
    ensures ReadOrCreate(Stored(items, e1), e2) == ReadOrCreate(items, e1)
    ensures Stored(Stored(items, e1), e2) == Stored(items, e1)
  {
  }

  /** `getDeviceId()`. */
  method GetDeviceId(storage: LocalStorage, e: Entropy) returns (id: string)
    requires WellFormed(e)
    modifies storage
    ensures id != "" && id == ReadOrCreate(old(storage.items), e)
    ensures storage.items == Stored(old(storage.items), e)
    ensures GetItem(storage.items, DEVICE_ID_KEY) == Some(id)
  {
    var item := GetItem(storage.items, DEVICE_ID_KEY);
    if item.None? || item.value == "" {
      id := FreshId(e);
      storage.items := storage.items[DEVICE_ID_KEY := id];
    } else {
      id := item.value;
    }
  }
}
