/**
  Route configuration: validation of one `[[configs]]` entry, the duplicate check
  over all of them, and the seven-slot table the daemon indexes by config id.
 */
module Routes {
  import opened Bits
  import opened Cipher

  type Mac = m: seq<byte> | |m| == 6 witness [0, 0, 0, 0, 0, 0]

  datatype IpAddr = V4(octets: seq<byte>) | V6(octets: seq<byte>)

  datatype Server = Server(
    id: seq<byte>, address: IpAddr, mac: Option<Mac>, draining: bool, healthy: bool,
    transitions: nat, stateSince: Option<nat>)

  datatype Encryption = Plaintext | SinglePass(aes: Aes) | FourPass(aes: Aes)

  datatype RouteConfig = RouteConfig(
    configId: nat, sidLen: nat, nonceLen: nat, encryption: Encryption, servers: seq<Server>)
  {
    function PayloadLen(): nat { sidLen + nonceLen }
    function CidLen(): nat { 1 + PayloadLen() }

    /** What validation promises of a config. */
    predicate WellFormed() {
      && configId <= 6 && 1 <= sidLen <= 15 && 4 <= nonceLen <= 18 && PayloadLen() <= 19
      && (encryption.SinglePass? ==> PayloadLen() == 16)
      && (encryption.FourPass? ==> PayloadLen() != 16)
      && forall i :: 0 <= i < |servers| ==> |servers[i].id| == sidLen
    }
  }

  /** Index of the first server with raw id `id`. */
  function FindServerIdx(servers: seq<Server>, id: seq<byte>): (r: Option<nat>)
    ensures r.Some? <==> exists k :: 0 <= k < |servers| && servers[k].id == id
    ensures r.Some? ==> r.value < |servers| && servers[r.value].id == id
                        && forall k :: 0 <= k < r.value ==> servers[k].id != id
  {
    if servers == [] then None
    else if servers[0].id == id then Some(0)
    else
      assert forall k :: 0 < k < |servers| ==> servers[1..][k - 1] == servers[k];
      match FindServerIdx(servers[1..], id)
      case None => None
      case Some(k) => Some(k + 1)
  }

  // ------------------------------------------------------------- validation

  /** A deserialised entry; hex fields are already bytes, and `key` already AES. */
  datatype RawServer = RawServer(id: seq<byte>, address: IpAddr, mac: Option<Mac>, draining: bool)
  datatype RawConfig = RawConfig(
    configId: nat, sidLen: nat, nonceLen: nat, key: Option<Aes>, servers: seq<RawServer>, maxKeyAge: Option<nat>)

  datatype RouteError =
    | BadConfigId | BadServerIdLength | BadNonceLength | BadSum | BadServer | BadKeyAge | NoConfigs | DuplicateId

  datatype Result<+T> = Ok(value: T) | Err(error: RouteError)

  predicate Acceptable(raw: RawConfig) {
    && raw.configId <= 6 && 1 <= raw.sidLen <= 15 && 4 <= raw.nonceLen <= 18
    && raw.sidLen + raw.nonceLen <= 19
    && (forall i :: 0 <= i < |raw.servers| ==> |raw.servers[i].id| == raw.sidLen)
    && raw.maxKeyAge != Some(0)
  }

  function ParseServer(raw: RawServer): Server {
    Server(raw.id, raw.address, raw.mac, raw.draining, false, 0, None)
  }

  function Validate(raw: RawConfig): (r: Result<RouteConfig>)
    ensures r.Ok? <==> Acceptable(raw)
    ensures r.Ok? ==> r.value.WellFormed() && r.value.configId == raw.configId
  {
    if raw.configId > 6 then Err(BadConfigId)
    else if raw.sidLen == 0 || raw.sidLen > 15 then Err(BadServerIdLength)
    else if raw.nonceLen < 4 || raw.nonceLen > 18 then Err(BadNonceLength)
    else if raw.sidLen + raw.nonceLen > 19 then Err(BadSum)
    else
      var encryption := match raw.key
        case None => Plaintext
        case Some(aes) => if raw.sidLen + raw.nonceLen == 16 then SinglePass(aes) else FourPass(aes);
      if exists i :: 0 <= i < |raw.servers| && |raw.servers[i].id| != raw.sidLen then Err(BadServer)
      else if raw.maxKeyAge == Some(0) then Err(BadKeyAge)
      else
        var servers := seq(|raw.servers|, i requires 0 <= i < |raw.servers| => ParseServer(raw.servers[i]));
        Ok(RouteConfig(raw.configId, raw.sidLen, raw.nonceLen, encryption, servers))
  }

  /** What `parse_routes` accepts. */
  predicate Accepted(raws: seq<RawConfig>) {
    && raws != [] && (forall i :: 0 <= i < |raws| ==> Acceptable(raws[i]))
    && (forall i, j :: 0 <= i < j < |raws| ==> raws[i].configId != raws[j].configId)
  }

  /** `parse_routes`: validate in order, refusing an empty file and repeated ids. */
  method ParseRoutes(raws: seq<RawConfig>) returns (r: Result<seq<RouteConfig>>)
    ensures r.Ok? <==> Accepted(raws)
    ensures r.Ok? ==> |r.value| == |raws|
    ensures r.Ok? ==> forall i :: 0 <= i < |raws| ==> Validate(raws[i]) == Ok(r.value[i])
  {
    if raws == [] { return Err(NoConfigs); }
    var out: seq<RouteConfig> := [];
    var seen := new bool[7](_ => false);
    for n := 0 to |raws|
      invariant |out| == n
      invariant forall i :: 0 <= i < n ==> Validate(raws[i]) == Ok(out[i])
      invariant forall i :: 0 <= i < n ==> Acceptable(raws[i])
      invariant forall id :: 0 <= id < 7 ==> (seen[id] <==> exists i :: 0 <= i < n && raws[i].configId == id)
      invariant forall i, j :: 0 <= i < j < n ==> raws[i].configId != raws[j].configId
    {
      match Validate(raws[n])
      case Err(e) => return Err(e);
      case Ok(config) =>
        var id := config.configId;
        if seen[id] { return Err(DuplicateId); }
        seen[id] := true;
        out := out + [config];
    }
    r := Ok(out);
  }

  // ------------------------------------------------------------------ table

  type Slots = seq<Option<RouteConfig>>

  /** Each slot holds a validated config filed under its own id. */
  predicate ValidSlots(slots: Slots) {
    && |slots| == 7
    && forall i :: 0 <= i < 7 && slots[i].Some? ==> slots[i].value.configId == i && slots[i].value.WellFormed()
  }

  /** `ConfigTable`: slots by config id, and the merged fallback pool. */
  datatype Table = Table(slots: Slots, fallback: seq<Server>) {
    predicate Valid() { ValidSlots(slots) }

    function Get(id: nat): Option<RouteConfig> {
      if id < |slots| then slots[id] else None
    }

    /** CID length of the first active config. */
    function FallbackCidLen(): Option<nat> { FirstCidLen(slots) }
  }

  function FirstCidLen(slots: Slots): Option<nat> {
    if slots == [] then None
    else if slots[0].Some? then Some(slots[0].value.CidLen())
    else FirstCidLen(slots[1..])
  }
}
