/**
  * Configuration utilities: the image-type enum, the (gain, sample time) pair, the
  * shipped defaults, and the configuration class with its neighbour-dependency table
  * and its list of configuration-changed callbacks.
  */
module Utility {
  import opened Wrappers

  /** Which image of the processor a node transmits. */
  datatype ImageType = Foreground | Background | Difference {
    /** The enum member's value. */
    function Value(): string {
      match this
      case Foreground => "fg"
      case Background => "bg"
      case Difference => "df"
    }
  }

  /** Enum lookup by value, `ImageType(value)`: a value naming no member raises ValueError. */
  function ImageTypeOf(value: string): (r: Result<ImageType>)
    ensures r.Ok? <==> value in {"fg", "bg", "df"}
    ensures r.Ok? ==> r.value.Value() == value
    ensures r.Err? ==> r.error == ValueError
  {
    if value == "fg" then Ok(Foreground)
    else if value == "bg" then Ok(Background)
    else if value == "df" then Ok(Difference)
    else Err(ValueError)
  }

  /** The enum has exactly three members, told apart by their values. */
  lemma ImageTypeValues(a: ImageType, b: ImageType)
    ensures a.Value() in {"fg", "bg", "df"}
    ensures a.Value() == b.Value() <==> a == b
    ensures ImageTypeOf(a.Value()) == Ok(a)
  {
  }

  /** One operating regime of the activity controller. */
  datatype GainSampleTime = GainSampleTime(gain: real, sampleTime: real)

  const ImageWidth: nat := 320
  const ImageHeight: nat := 240
  const FrameRate: nat := 20
  const DefaultBelowThreshold: GainSampleTime := GainSampleTime(2.0, 1.0)
  const DefaultAboveThreshold: GainSampleTime := GainSampleTime(0.1, 0.1)
  const DefaultActivationThreshold: real := 15.0

  /** The shipped regimes make an idle node sample slowly with a high gain, and an active one fast. */
  lemma DefaultRegimes()
    ensures DefaultBelowThreshold.sampleTime == 10.0 * DefaultAboveThreshold.sampleTime
    ensures DefaultBelowThreshold.gain == 20.0 * DefaultAboveThreshold.gain
    ensures 0.0 < DefaultAboveThreshold.sampleTime < DefaultBelowThreshold.sampleTime
  {
  }

  /** Python list indexing `s[k]`: negative indices count from the end. */
  function ListIndex<T>(s: seq<T>, k: int): (r: Result<T>)
    ensures r.Ok? <==> -|s| <= k < |s|
    ensures 0 <= k < |s| ==> r == Ok(s[k])
    ensures -|s| <= k < 0 ==> r == Ok(s[|s| + k])
    ensures r.Err? ==> r.error == IndexError
  {
    if 0 <= k < |s| then Ok(s[k])
    else if -|s| <= k < 0 then Ok(s[|s| + k])
    else Err(IndexError)
  }

  /** The identity of a registered zero-argument callable. */
  type Callback = nat

  /** The configuration class; its class-level state is held by one instance. */
  class Config {
    var callbacks: seq<Callback>
    var dependencies: map<int, seq<real>>

    constructor ()
      ensures callbacks == [] && dependencies == map[]
    {
      callbacks := [];
      dependencies := map[];
    }

    /** Subscripting the class raises, whatever the name. */
    function Subscript(name: string): (r: Result<real>)
      ensures r.Err? && r.error == RuntimeError
    {
      Err(RuntimeError)
    }

    /** Item assignment on the class raises and stores nothing. */
    method SubscriptAssign(key: string, value: real) returns (r: Outcome)
      ensures r == Fail(RuntimeError)
    {
      r := Fail(RuntimeError);
    }

    /** Registration appends; earlier registrations keep their place. */
    method AddConfigurationChangedCallback(f: Callback)
      modifies this
      ensures callbacks == old(callbacks) + [f]
      ensures dependencies == old(dependencies)
    {
      callbacks := callbacks + [f];
    }

    /** Runs the callbacks; `invoked` is the sequence of calls made, in order. */
    method ExecuteCallbacks() returns (invoked: seq<Callback>)
      ensures invoked == callbacks
    {
      invoked := [];
      for i := 0 to |callbacks|
        invariant invoked == callbacks[..i]
      {
        invoked := invoked + [callbacks[i]];
      }
    }

    /**
      * The weight of neighbour `neighbourId` (1-based) for camera `cameraId`, as written:
      * the index `neighbourId - 1` is a Python list index, so ids 0, -1, ... read from the end.
      */
    function GetDependencyValue(cameraId: int, neighbourId: int): (r: Result<real>)
      reads this
      ensures cameraId !in dependencies ==> r == Err(KeyError)
      ensures cameraId in dependencies && 1 <= neighbourId <= |dependencies[cameraId]| ==>
                r == Ok(dependencies[cameraId][neighbourId - 1])
      ensures cameraId in dependencies && 1 - |dependencies[cameraId]| <= neighbourId <= 0 ==>
                r == Ok(dependencies[cameraId][|dependencies[cameraId]| + neighbourId - 1])
      ensures cameraId in dependencies &&
              (neighbourId > |dependencies[cameraId]| || neighbourId < 1 - |dependencies[cameraId]|) ==>
                r == Err(IndexError)
    {
      if cameraId in dependencies then ListIndex(dependencies[cameraId], neighbourId - 1)
      else Err(KeyError)
    }

    /** The lookup with 1-based neighbour ids enforced: ids outside 1..n are an IndexError. */
    function GetNeighbourDependency(cameraId: int, neighbourId: int): (r: Result<real>)
      reads this
      ensures r.Ok? <==> cameraId in dependencies && 1 <= neighbourId <= |dependencies[cameraId]|
      ensures r.Ok? ==> r.value == dependencies[cameraId][neighbourId - 1]
      ensures r.Err? ==> r.error == (if cameraId in dependencies then IndexError else KeyError)
    {
      if cameraId !in dependencies then Err(KeyError)
      else if 1 <= neighbourId <= |dependencies[cameraId]| then Ok(dependencies[cameraId][neighbourId - 1])
      else Err(IndexError)
    }
  }

  /**
    * With one camera and two neighbours, neighbour id 0 is not rejected: the as-written lookup
    * returns the LAST neighbour's weight; the checked lookup reports an IndexError.
    */
  lemma NeighbourZeroReadsLastEntry(cfg: Config)
    requires cfg.dependencies == map[1 := [0.5, 0.25]]
    ensures cfg.GetDependencyValue(1, 0) == Ok(0.25)
    ensures cfg.GetNeighbourDependency(1, 0) == Err(IndexError)
  {
  }
}
