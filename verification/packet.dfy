/**
  * The packets a node sends to the server, as the dictionaries they are built as, and the
  * router that dispatches an incoming packet on its `_pktype` discriminator.
  */
module Packet {
  import opened Wrappers

  /** The values a packet dictionary holds. */
  datatype Value = Text(s: string) | Integer(i: int) | Number(r: real) | Bytes(b: seq<bv8>) | Null

  /** A packet: a dictionary from field names to values. */
  type Packet = map<string, Value>

  const ConfigurationKeys: set<string> := {"_pktype", "node_id", "software_version"}
  const DataKeys: set<string> := {"_pktype", "white_pixels", "activation_level", "gain", "sample_time", "image"}

  /** The node's configuration report. */
  function ConfigurationPacket(nodeId: int, softwareVersion: string): (p: Packet)
    ensures p.Keys == ConfigurationKeys
    ensures p["_pktype"] == Text("svconf")
    ensures p["node_id"] == Integer(nodeId) && p["software_version"] == Text(softwareVersion)
  {
    map["_pktype" := Text("svconf"), "node_id" := Integer(nodeId), "software_version" := Text(softwareVersion)]
  }

  /** The node's measurement report; a missing image is stored as None. */
  function DataPacket(whitePixels: real, activationLevel: real, gain: real, sampleTime: real,
                      image: Option<seq<bv8>>): (p: Packet)
    ensures p.Keys == DataKeys
    ensures p["_pktype"] == Text("svdata")
    ensures p["white_pixels"] == Number(whitePixels) && p["activation_level"] == Number(activationLevel)
    ensures p["gain"] == Number(gain) && p["sample_time"] == Number(sampleTime)
    ensures p["image"] == if image.Some? then Bytes(image.value) else Null
  {
    map["_pktype" := Text("svdata"),
        "white_pixels" := Number(whitePixels),
        "activation_level" := Number(activationLevel),
        "gain" := Number(gain),
        "sample_time" := Number(sampleTime),
        "image" := if image.Some? then Bytes(image.value) else Null]
  }

  /** The two callbacks a router is built with. */
  datatype Handler = DataHandler | ConfigurationHandler

  /** One callback invocation, with the packet it was given. */
  datatype Call = Call(handler: Handler, packet: Packet)

  /** What routing did: the callbacks it invoked, in order, and the exception it raised, if any. */
  datatype Routing = Routing(calls: seq<Call>, raised: Option<Error>)

  function Count(calls: seq<Call>, h: Handler): (n: nat)
    ensures n <= |calls|
  {
    if calls == [] then 0 else Count(calls[..|calls| - 1], h) + (if calls[|calls| - 1].handler == h then 1 else 0)
  }

  /**
    * `route_packet`: `cldata` goes to the data callback, `clconf` to the configuration callback,
    * any other discriminator raises TypeError, and a packet without one raises KeyError.
    */
  function RoutePacket(p: Packet): (r: Routing)
    ensures |r.calls| <= 1 && (r.calls == [] <==> r.raised.Some?)
    ensures forall k :: 0 <= k < |r.calls| ==> r.calls[k].packet == p
    ensures "_pktype" !in p ==> r.raised == Some(KeyError)
    ensures "_pktype" in p && p["_pktype"] == Text("cldata") ==>
              Count(r.calls, DataHandler) == 1 && Count(r.calls, ConfigurationHandler) == 0
    ensures "_pktype" in p && p["_pktype"] == Text("clconf") ==>
              Count(r.calls, ConfigurationHandler) == 1 && Count(r.calls, DataHandler) == 0
    ensures "_pktype" in p && p["_pktype"] !in {Text("cldata"), Text("clconf")} ==> r.raised == Some(TypeError)
  {
    if "_pktype" !in p then Routing([], Some(KeyError))
    else if p["_pktype"] == Text("cldata") then Routing([Call(DataHandler, p)], None)
    else if p["_pktype"] == Text("clconf") then Routing([Call(ConfigurationHandler, p)], None)
    else Routing([], Some(TypeError))
  }

  /** The module's own packets carry node-to-server discriminators, which the router rejects. */
  lemma OwnPacketsAreNotRoutable(nodeId: int, softwareVersion: string, whitePixels: real,
                                 activationLevel: real, gain: real, sampleTime: real, image: Option<seq<bv8>>)
    ensures RoutePacket(ConfigurationPacket(nodeId, softwareVersion)) == Routing([], Some(TypeError))
    ensures RoutePacket(DataPacket(whitePixels, activationLevel, gain, sampleTime, image)) == Routing([], Some(TypeError))
  {
    assert "svconf" != "cldata" && "svconf" != "clconf";
    assert "svdata" != "cldata" && "svdata" != "clconf";
  }
}
