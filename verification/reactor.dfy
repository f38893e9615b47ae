/**
  * The node's reactor: it rebuilds the activity controller on every configuration packet,
  * assigns the node id (from the packet, or from the digits of the host name), starts the
  * periodic update once an id is known, forwards the neighbours' activation, and on each
  * tick reschedules itself, measures a frame, updates the controller and reports.
  *
  * Transport sends, timer scheduling, cancellation and disconnection are recorded in the
  * ghost `log` instead of being performed. The camera is represented by the frame it would
  * deliver in slow mode and the one it would deliver otherwise, and JPEG encoding by a
  * function from an image to bytes.
  */
module Reactor {
  import opened Wrappers
  import opened Utility
  import opened Activity
  import opened Image
  import opened Packet

  predicate IsDigit(c: char) {
    '0' <= c <= '9'
  }

  predicate AllDigits(s: string) {
    forall k :: 0 <= k < |s| ==> IsDigit(s[k])
  }

  /** The digit characters of `s`, in order (`''.join(x for x in s if x.isdigit())`). */
  function Digits(s: string): (d: string)
    ensures |d| <= |s| && AllDigits(d)
  {
    if s == [] then [] else Digits(s[..|s| - 1]) + (if IsDigit(s[|s| - 1]) then [s[|s| - 1]] else [])
  }

  /** Digit extraction distributes over concatenation: digits keep their order across the whole name. */
  lemma {:induction false} DigitsOfConcat(a: string, b: string)
    ensures Digits(a + b) == Digits(a) + Digits(b)
  {
    if b == [] {
      assert a + b == a;
    } else {
      var b' := b[..|b| - 1];
      assert (a + b)[..|a + b| - 1] == a + b';
      DigitsOfConcat(a, b');
    }
  }

  /** A name yields no digits exactly when none of its characters is a digit. */
  lemma {:induction false} NoDigits(s: string)
    ensures Digits(s) == [] <==> forall k :: 0 <= k < |s| ==> !IsDigit(s[k])
  {
    if s != [] {
      NoDigits(s[..|s| - 1]);
      assert forall k :: 0 <= k < |s| - 1 ==> s[..|s| - 1][k] == s[k];
    }
  }

  function Pow10(n: nat): (p: nat)
    ensures p >= 1
  {
    if n == 0 then 1 else 10 * Pow10(n - 1)
  }

  /** `int(d)` for a non-empty string of decimal digits. */
  function DecimalValue(d: string): (v: nat)
    requires AllDigits(d)
    ensures v < Pow10(|d|)
  {
    if d == [] then 0
    else
      var prefix := DecimalValue(d[..|d| - 1]);
      var last := DigitValue(d[|d| - 1]);
      assert prefix * 10 + last < Pow10(|d|) by {
        assert prefix <= Pow10(|d| - 1) - 1;
        assert prefix * 10 <= (Pow10(|d| - 1) - 1) * 10;
      }
      prefix * 10 + last
  }

  function DigitValue(c: char): (v: nat)
    requires IsDigit(c)
    ensures v <= 9
  {
    (c as int) - ('0' as int)
  }

  /** Reading digits left to right: the value of `a + b` shifts `a` by the length of `b`. */
  lemma {:induction false} DecimalValueOfConcat(a: string, b: string)
    requires AllDigits(a) && AllDigits(b)
    ensures AllDigits(a + b)
    ensures DecimalValue(a + b) == DecimalValue(a) * Pow10(|b|) + DecimalValue(b)
  {
    AllDigitsOfConcat(a, b);
    if b == [] {
      assert a + b == a;
    } else {
      var b' := b[..|b| - 1];
      assert AllDigits(b');
      assert (a + b)[..|a + b| - 1] == a + b';
      DecimalValueOfConcat(a, b');
      var last := DigitValue(b[|b| - 1]);
      assert DecimalValue(a + b) == DecimalValue(a + b') * 10 + last;
      assert DecimalValue(b) == DecimalValue(b') * 10 + last;
      ShiftByOneDigit(DecimalValue(a), DecimalValue(b'), Pow10(|b'|), last);
    }
  }

  lemma AllDigitsOfConcat(a: string, b: string)
    requires AllDigits(a) && AllDigits(b)
    ensures AllDigits(a + b)
  {
    forall k | 0 <= k < |a + b| ensures IsDigit((a + b)[k]) {
      if k >= |a| { assert (a + b)[k] == b[k - |a|]; }
    }
  }

  lemma ShiftByOneDigit(x: int, y: int, p: int, last: int)
    ensures (x * p + y) * 10 + last == x * (p * 10) + (y * 10 + last)
  {
  }

  /** The node id derived from the host name: the decimal value of its digits; no digit is a ValueError. */
  function HostnameId(hostname: string): (r: Result<nat>)
    ensures r.Err? <==> forall k :: 0 <= k < |hostname| ==> !IsDigit(hostname[k])
    ensures r.Err? ==> r.error == ValueError
    ensures r.Ok? ==> r.value < Pow10(|Digits(hostname)|)
  {
    NoDigits(hostname);
    var d := Digits(hostname);
    if d == [] then Err(ValueError) else Ok(DecimalValue(d))
  }

  /** Appending one character appends it to the digits exactly when it is a digit. */
  lemma DigitsSnoc(s: string, c: char)
    ensures Digits(s + [c]) == Digits(s) + (if IsDigit(c) then [c] else [])
  {
    assert (s + [c])[..|s|] == s;
  }

  /** Digits are collected from the whole name and read as one number. */
  lemma HostnameIdExample()
    ensures HostnameId("n3r1") == Ok(31)
  {
    assert Digits("") == "";
    DigitsSnoc("", 'n');
    assert "" + ['n'] == "n";
    DigitsSnoc("n", '3');
    assert "n" + ['3'] == "n3";
    DigitsSnoc("n3", 'r');
    assert "n3" + ['r'] == "n3r";
    DigitsSnoc("n3r", '1');
    assert "n3r" + ['1'] == "n3r1";
    assert Digits("n3r1") == "31";
    assert "31"[..1] == "3" && "3"[..0] == "";
    assert DecimalValue("31") == 31;
  }

  /** What a configuration packet does about the node id. */
  datatype Identity = Identity(nodeId: Option<int>, report: bool, disconnect: bool)

  /**
    * An id in the packet replaces the stored one and is reported, even when one is stored;
    * otherwise a node without id and with host-name ids enabled takes the host name's digits
    * and reports, or disconnects when there are none; in every other case nothing happens.
    */
  function ResolveIdentity(current: Option<int>, packetId: Option<int>, hostnameBasedIds: bool,
                           hostname: string): (r: Identity)
    ensures r.report ==> r.nodeId.Some?
    ensures r.disconnect ==> r.nodeId.None? && !r.report
    ensures current.Some? ==> r.nodeId.Some?
    ensures packetId.Some? ==> r == Identity(packetId, true, false)
    ensures packetId.None? && (current.Some? || !hostnameBasedIds) ==> r == Identity(current, false, false)
    ensures packetId.None? && current.None? && hostnameBasedIds ==>
              && (r.disconnect <==> forall k :: 0 <= k < |hostname| ==> !IsDigit(hostname[k]))
              && (r.report <==> !r.disconnect)
              && (r.nodeId.Some? ==> r.nodeId.value == DecimalValue(Digits(hostname)))
  {
    if packetId.Some? then Identity(packetId, true, false)
    else if current.None? && hostnameBasedIds then
      match HostnameId(hostname)
      case Ok(n) => Identity(Some(n), true, false)
      case Err(_) => Identity(None, false, true)
    else Identity(current, false, false)
  }

  /** The events of resolving an identity: the report of a new id, or the disconnection. */
  function IdentityEvents(id: Identity, version: string): (e: seq<Event>)
    ensures |e| <= 1
  {
    if id.report && id.nodeId.Some? then [Sent(ConfigurationPacket(id.nodeId.value, version))]
    else if id.disconnect then [Disconnected]
    else []
  }

  /** The configuration packet a server sends to a node. */
  datatype ServerConfiguration = ServerConfiguration(
    nodeId: Option<int>,
    sendImage: Option<bool>,
    imageType: Option<ImageType>,
    below: GainSampleTime,
    above: GainSampleTime,
    threshold: real,
    hostnameBasedIds: bool)

  /** The outward effects of the reactor, in the order they happen. */
  datatype Event = Sent(packet: Packet) | Scheduled(delay: real) | Cancelled | Disconnected

  /** The handle of the pending update: its delay and whether it was cancelled. */
  datatype Task = Task(delay: real, cancelled: bool)

  class Reactor {
    var nodeId: Option<int>
    var waitingForConfiguration: bool
    var sendImage: bool
    var imageType: ImageType
    var controller: ActivityController?
    var updateTask: Option<Task>
    const imageProcessor: ImageProcessor
    const decay: real -> real
    const encode: Image -> seq<bv8>
    const version: string
    ghost var log: seq<Event>

    /** An id is only ever stored, and a tick only ever scheduled, after a controller was built. */
    ghost predicate Valid()
      reads this`nodeId, this`updateTask, this`controller, controller, imageProcessor
    {
      && imageProcessor.Valid()
      && (nodeId.Some? ==> controller != null)
      && (updateTask.Some? ==> controller != null)
      && (controller != null ==> controller.decay == decay)
    }

    constructor (initialFrame: Image, filters: Filters, decay: real -> real,
                 encode: Image -> seq<bv8>, version: string)
      requires NonEmpty(initialFrame) && Sound(filters)
      ensures Valid() && fresh(imageProcessor) && fresh(imageProcessor.background)
      ensures imageProcessor.CurrentBackground() == initialFrame && imageProcessor.filters == filters
      ensures nodeId == None && !waitingForConfiguration && !sendImage && imageType == Foreground
      ensures controller == null && updateTask == None && log == []
      ensures this.decay == decay && this.encode == encode && this.version == version
    {
      nodeId := None;
      sendImage := false;
      imageType := Foreground;
      imageProcessor := new ImageProcessor(initialFrame, filters);
      controller := null;
      updateTask := None;
      waitingForConfiguration := false;
      this.decay := decay;
      this.encode := encode;
      this.version := version;
      log := [];
    }

    /** With an id: stop waiting and schedule one update after the sample time in force. Without: wait. */
    method Start()
      requires Valid()
      modifies this
      ensures Valid()
      ensures nodeId == old(nodeId) && controller == old(controller)
      ensures sendImage == old(sendImage) && imageType == old(imageType)
      ensures nodeId.Some? ==>
        && !waitingForConfiguration
        && updateTask == Some(Task(controller.SampleTime(), false))
        && log == old(log) + [Scheduled(controller.SampleTime())]
      ensures nodeId.None? ==>
        && waitingForConfiguration
        && updateTask == old(updateTask) && log == old(log)
    {
      if nodeId.Some? {
        waitingForConfiguration := false;
        var delay := controller.SampleTime();
        updateTask := Some(Task(delay, false));
        log := log + [Scheduled(delay)];
      } else {
        waitingForConfiguration := true;
      }
    }

    /**
      * A configuration packet: a fresh controller from the packet's regimes and threshold, the
      * node id resolved as ResolveIdentity says, a start when the node was waiting, then the
      * optional image-type and send-image overrides.
      */
    method ProcessConfigurationPacket(packet: ServerConfiguration, hostname: string)
      requires Valid()
      modifies this
      ensures Valid()
      ensures controller != null && fresh(controller) && controller.decay == decay
      ensures controller.Snapshot() == Initial(packet.below, packet.above, packet.threshold)
      ensures nodeId == ResolveIdentity(old(nodeId), packet.nodeId, packet.hostnameBasedIds, hostname).nodeId
      ensures waitingForConfiguration == (old(waitingForConfiguration) && nodeId.None?)
      ensures updateTask == if old(waitingForConfiguration) && nodeId.Some?
                            then Some(Task(packet.below.sampleTime, false)) else old(updateTask)
      ensures log == old(log)
                     + IdentityEvents(ResolveIdentity(old(nodeId), packet.nodeId, packet.hostnameBasedIds, hostname), version)
                     + (if old(waitingForConfiguration) && nodeId.Some? then [Scheduled(packet.below.sampleTime)] else [])
      ensures imageType == (if packet.imageType.Some? then packet.imageType.value else old(imageType))
      ensures sendImage == (if packet.sendImage.Some? then packet.sendImage.value else old(sendImage))
    {
      ghost var id := ResolveIdentity(nodeId, packet.nodeId, packet.hostnameBasedIds, hostname);
      ghost var identified := log + IdentityEvents(id, version);
      controller := new ActivityController(packet.below, packet.above, packet.threshold, decay);
      AssignNodeId(packet.nodeId, packet.hostnameBasedIds, hostname);
      assert nodeId == id.nodeId && log == identified;
      if waitingForConfiguration {
        Start();
        assert nodeId.Some? ==> log == identified + [Scheduled(packet.below.sampleTime)];
      }
      ApplyOverrides(packet.imageType, packet.sendImage);
    }

    /** The optional image-type and send-image overrides of a configuration packet. */
    method ApplyOverrides(newImageType: Option<ImageType>, newSendImage: Option<bool>)
      modifies this`imageType, this`sendImage
      ensures imageType == (if newImageType.Some? then newImageType.value else old(imageType))
      ensures sendImage == (if newSendImage.Some? then newSendImage.value else old(sendImage))
    {
      if newImageType.Some? {
        imageType := newImageType.value;
      }
      if newSendImage.Some? {
        sendImage := newSendImage.value;
      }
    }

    /** The node-id part of the configuration handler, with a controller already built. */
    method AssignNodeId(packetId: Option<int>, hostnameBasedIds: bool, hostname: string)
      requires Valid() && controller != null
      modifies this
      ensures Valid() && controller == old(controller)
      ensures waitingForConfiguration == old(waitingForConfiguration) && updateTask == old(updateTask)
      ensures sendImage == old(sendImage) && imageType == old(imageType)
      ensures var id := ResolveIdentity(old(nodeId), packetId, hostnameBasedIds, hostname);
        nodeId == id.nodeId && log == old(log) + IdentityEvents(id, version)
    {
      if packetId.Some? {
        nodeId := packetId;
        log := log + [Sent(ConfigurationPacket(nodeId.value, version))];
      } else if nodeId.None? && hostnameBasedIds {
        var id := HostnameId(hostname);
        if id.Ok? {
          nodeId := Some(id.value);
          log := log + [Sent(ConfigurationPacket(id.value, version))];
        } else {
          log := log + [Disconnected];
        }
      }
    }

    /** A data packet: only the controller's neighbour activation changes; before any configuration it fails. */
    method ProcessDataPacket(activationNeighbours: real) returns (r: Outcome)
      requires Valid()
      modifies controller
      ensures Valid() && unchanged(this)
      ensures old(controller) == null ==> r == Fail(AttributeError)
      ensures old(controller) != null ==>
        r == Pass && controller.Snapshot() == old(controller.Snapshot()).(neighbours := activationNeighbours)
    {
      if controller == null {
        return Fail(AttributeError);
      }
      controller.SetParams(Some(activationNeighbours), None, None, None);
      r := Pass;
    }

    /** A disconnect: cancel the pending update, then disconnect; with no update ever scheduled it fails first. */
    method ProcessDisconnectPacket() returns (r: Outcome)
      requires Valid()
      modifies this
      ensures Valid()
      ensures nodeId == old(nodeId) && controller == old(controller)
      ensures waitingForConfiguration == old(waitingForConfiguration)
      ensures sendImage == old(sendImage) && imageType == old(imageType)
      ensures old(updateTask).None? ==> r == Fail(AttributeError) && updateTask == None && log == old(log)
      ensures old(updateTask).Some? ==>
        && r == Pass
        && updateTask == Some(old(updateTask).value.(cancelled := true))
        && log == old(log) + [Cancelled, Disconnected]
    {
      if updateTask.None? {
        return Fail(AttributeError);
      }
      updateTask := Some(updateTask.value.(cancelled := true));
      log := log + [Cancelled];
      log := log + [Disconnected];
      r := Pass;
    }

    /** The image to attach: the selected view of the processor, encoded. */
    function EncodedImage(): seq<bv8>
      reads this`nodeId, this`updateTask, this`controller, controller, this`imageType, imageProcessor, imageProcessor.background
      requires Valid()
    {
      encode(imageProcessor.GetImage(imageType))
    }

    /**
      * The data packet closing a tick: the raw percentage with the controller's level, gain
      * and sample time, and the encoded image unless the node is below threshold and image
      * sending is off.
      */
    function OutgoingData(percentage: real): (p: Packet)
      reads this`nodeId, this`updateTask, this`controller, controller, this`sendImage, this`imageType, imageProcessor, imageProcessor.background
      requires Valid() && controller != null
      ensures p.Keys == DataKeys && p["white_pixels"] == Number(percentage)
      ensures p["activation_level"] == Number(controller.level)
      ensures p["gain"] == Number(controller.Gain()) && p["sample_time"] == Number(controller.SampleTime())
      ensures p["image"].Null? <==> controller.IsBelowThreshold() && !sendImage
      ensures !p["image"].Null? ==> p["image"] == Bytes(EncodedImage())
    {
      var s := controller.Snapshot();
      var image := if s.IsBelowThreshold() && !sendImage then None else Some(EncodedImage());
      DataPacket(percentage, s.level, s.Gain(), s.SampleTime(), image)
    }

    /**
      * One tick. The next tick is scheduled first, after the sample time in force before the
      * update; the frame is grabbed in slow mode when the controller was below threshold before
      * the update; a rejected frame ends the tick there. Otherwise the controller is updated
      * and a data packet is sent with the raw percentage and the updated level, gain and
      * sample time, carrying the encoded image unless the node is now below threshold and
      * image sending is off.
      */
    method DoRegularUpdate(slowFrame: Image, fastFrame: Image) returns (r: Outcome)
      requires Valid() && updateTask.Some? && !updateTask.value.cancelled
      modifies this, controller, imageProcessor, imageProcessor.background
      ensures Valid() && controller == old(controller)
      ensures nodeId == old(nodeId) && waitingForConfiguration == old(waitingForConfiguration)
      ensures sendImage == old(sendImage) && imageType == old(imageType)
      ensures updateTask == Some(Task(old(controller.SampleTime()), false))
      ensures var frame := if old(controller.IsBelowThreshold()) then slowFrame else fastFrame;
        var usable := NonEmpty(frame) && |frame| == imageProcessor.height && Width(frame) == imageProcessor.width;
        && (!usable ==>
              && r == Fail(OpenCvError)
              && controller.Snapshot() == old(controller.Snapshot())
              && imageProcessor.CurrentBackground() == old(imageProcessor.CurrentBackground())
              && imageProcessor.difference == old(imageProcessor.difference)
              && imageProcessor.foreground == (if NonEmpty(frame) then frame else old(imageProcessor.foreground))
              && log == old(log) + [Scheduled(old(controller.SampleTime()))])
        && (usable ==>
              var percentage := ActivityOf(old(imageProcessor.CurrentBackground()), frame, imageProcessor.filters);
              && r == Pass
              && controller.Snapshot() == Updated(old(controller.Snapshot()), percentage, decay)
              && imageProcessor.foreground == frame
              && imageProcessor.difference == DifferenceMask(old(imageProcessor.CurrentBackground()), frame, imageProcessor.filters)
              && imageProcessor.CurrentBackground() == StepImage(old(imageProcessor.CurrentBackground()), frame)
              && log == old(log) + [Scheduled(old(controller.SampleTime())), Sent(OutgoingData(percentage))])
    {
      var delay := controller.SampleTime();
      updateTask := Some(Task(delay, false));
      var slowMode := controller.IsBelowThreshold();
      var frame := if slowMode then slowFrame else fastFrame;
      var percentage := imageProcessor.PercentageOfActivePixels(frame);
      if percentage.Err? {
        log := log + [Scheduled(delay)];
        return Fail(percentage.error);
      }
      controller.Update(percentage.value);
      log := log + [Scheduled(delay), Sent(OutgoingData(percentage.value))];
      r := Pass;
    }
  }
}
