/** `SoundPoolAutoload`: a fixed pool of audio players, the first free one taking each
    new sound. The audio server's state (the known buses and the muted ones) and the
    random choices are parameters. */
module SoundPool {
  import opened Common
  import opened Text

  const DEFAULT_POOL_PLAYERS_NUMBER: int := 16
  const PLAYER_NAME_PREFIX: string := "PoolAudioStreamPlayer"

  datatype AudioStream = AudioStream(resourcePath: string)

  /** Everything the pool reads or writes on one player. `volume` is the linear volume
      handed to the player (its decibel conversion is not modelled). */
  datatype PlayerState = PlayerState(
    name: string, stream: Option<AudioStream>, bus: string, volume: real, pitchScale: real,
    playing: bool, streamPaused: bool)

  /** An `AudioStreamPlayer` as the pool sees it. */
  /** What `from + randf() * (to - from)` can give: a value between the bounds, which may
      come in either order. */
  predicate Between(from: real, to: real, x: real) {
    if from <= to then from <= x <= to else to <= x <= from
  }

  class AudioPlayer {
    var name: string
    var stream: Option<AudioStream>
    var bus: string
    var volume: real
    var pitchScale: real
    var playing: bool
    var streamPaused: bool

    /** `new AudioStreamPlayer { Name = name }` with the engine's defaults. */
    constructor(name: string)
      ensures State() == PlayerState(name, None, "Master", 1.0, 1.0, false, false)
    {
      this.name := name;
      stream := None;
      bus := "Master";
      volume := 1.0;
      pitchScale := 1.0;
      playing := false;
      streamPaused := false;
    }

    function State(): PlayerState
      reads this
    {
      PlayerState(name, stream, bus, volume, pitchScale, playing, streamPaused)
    }
  }

  predicate IsFree(p: AudioPlayer)
    reads p
  {
    !p.playing && !p.streamPaused
  }

  /** The position of the first free player from `from` on, the `availableStreamPlayers[0]`
      of `NextAvailableAudioStreamPlayer`. */
  function FirstFree(players: seq<AudioPlayer>, from: nat): (r: Option<nat>)
    reads players
    requires from <= |players|
    ensures r.None? <==> forall j :: from <= j < |players| ==> !IsFree(players[j])
    ensures r.Some? ==> from <= r.value < |players| && IsFree(players[r.value])
    ensures r.Some? ==> forall j :: from <= j < r.value ==> !IsFree(players[j])
    decreases |players| - from
  {
    if from == |players| then None
    else if IsFree(players[from]) then Some(from)
    else FirstFree(players, from + 1)
  }

  function PlayerName(index: nat): string {
    PLAYER_NAME_PREFIX + NaturalString(index + 1)
  }

  /** The players' names tell their positions apart. */
  lemma PlayerNamesDistinct(i: nat, j: nat)
    requires i != j
    ensures PlayerName(i) != PlayerName(j)
  {
    NaturalStringRoundTrip(i + 1);
    NaturalStringRoundTrip(j + 1);
    var a, b := NaturalString(i + 1), NaturalString(j + 1);
    assert PlayerName(i)[|PLAYER_NAME_PREFIX|..] == a;
    assert PlayerName(j)[|PLAYER_NAME_PREFIX|..] == b;
  }

  /** `Mathf.Max(1, value)`, what the `PoolPlayersNumber` setter stores. */
  function ClampPoolSize(value: int): (r: int)
    ensures r >= 1
    ensures value >= 1 ==> r == value
    ensures value < 1 ==> r == 1
  {
    if value > 1 then value else 1
  }

  class SoundPoolAutoload {
    var pool: seq<AudioPlayer>
    var poolPlayersNumber: int

    /** Distinct players and a pool size of at least one. */
    predicate Valid()
      reads this
    {
      poolPlayersNumber >= 1
      && forall i, j :: 0 <= i < j < |pool| ==> pool[i] != pool[j]
    }

    constructor()
      ensures Valid() && pool == [] && poolPlayersNumber == DEFAULT_POOL_PLAYERS_NUMBER
    {
      pool := [];
      poolPlayersNumber := DEFAULT_POOL_PLAYERS_NUMBER;
    }

    /** `SetupPool`: inside the scene tree the pool is rebuilt with `PoolPlayersNumber`
        new players named `PoolAudioStreamPlayer1..N`; outside it nothing happens. */
    method SetupPool(insideTree: bool)
      requires Valid()
      modifies this
      ensures Valid() && poolPlayersNumber == old(poolPlayersNumber)
      ensures !insideTree ==> pool == old(pool)
      ensures insideTree ==> |pool| == poolPlayersNumber
      ensures insideTree ==> forall i :: 0 <= i < |pool| ==> fresh(pool[i])
      ensures insideTree ==> forall i :: 0 <= i < |pool| ==>
                pool[i].State() == PlayerState(PlayerName(i), None, "Master", 1.0, 1.0, false, false)
    {
      if insideTree {
        pool := [];
        var index := 0;
        while index < poolPlayersNumber
          invariant poolPlayersNumber == old(poolPlayersNumber)
          invariant 0 <= index <= poolPlayersNumber && |pool| == index
          invariant forall i :: 0 <= i < index ==> fresh(pool[i])
          invariant forall i, j :: 0 <= i < j < index ==> pool[i] != pool[j]
          invariant forall i :: 0 <= i < index ==>
                      pool[i].State() == PlayerState(PlayerName(i), None, "Master", 1.0, 1.0, false, false)
        {
          var streamPlayer := new AudioPlayer(PlayerName(index));
          pool := pool + [streamPlayer];
          index := index + 1;
        }
      }
    }

    /** The `PoolPlayersNumber` setter: clamps to at least one and rebuilds the pool. */
    method SetPoolPlayersNumber(value: int, insideTree: bool)
      requires Valid()
      modifies this
      ensures Valid() && poolPlayersNumber == ClampPoolSize(value)
      ensures !insideTree ==> pool == old(pool)
      ensures insideTree ==> |pool| == poolPlayersNumber
      ensures insideTree ==> forall i :: 0 <= i < |pool| ==> fresh(pool[i])
      ensures insideTree ==> forall i :: 0 <= i < |pool| ==>
                pool[i].State() == PlayerState(PlayerName(i), None, "Master", 1.0, 1.0, false, false)
    {
      poolPlayersNumber := ClampPoolSize(value);
      SetupPool(insideTree);
    }

    /** `NextAvailableAudioStreamPlayer`. */
    function NextAvailableAudioStreamPlayer(): (r: Option<AudioPlayer>)
      reads this, pool
      ensures r.None? <==> forall j :: 0 <= j < |pool| ==> !IsFree(pool[j])
      ensures r.Some? ==> exists k :: 0 <= k < |pool| && pool[k] == r.value && FirstFree(pool, 0) == Some(k)
    {
      match FirstFree(pool, 0)
      case None => None
      case Some(k) => Some(pool[k])
    }

    /** The shared body of `Play`, `PlayWithPitch` and `PlayWithPitchRange`: the first free
        player gets the stream, bus and volume (and the pitch, when one is given) and starts
        playing; with no free player nothing changes. */
    method PlayOnFreePlayer(stream: AudioStream, bus: string, volume: real, pitch: Option<real>)
      requires Valid()
      modifies pool
      ensures pool == old(pool)
      ensures match old(FirstFree(pool, 0))
              case None => forall j :: 0 <= j < |pool| ==> pool[j].State() == old(pool[j].State())
              case Some(k) =>
                (forall j :: 0 <= j < |pool| && j != k ==> pool[j].State() == old(pool[j].State()))
                && pool[k].State() == old(pool[k].State()).(
                     stream := Some(stream), bus := bus, volume := volume, playing := true,
                     pitchScale := if pitch.Some? then pitch.value else old(pool[k].pitchScale))
    {
      var found := FirstFree(pool, 0);
      if found.Some? {
        var streamPlayer := pool[found.value];
        streamPlayer.stream := Some(stream);
        streamPlayer.bus := bus;
        streamPlayer.volume := volume;
        if pitch.Some? {
          streamPlayer.pitchScale := pitch.value;
        }
        streamPlayer.playing := true;
      }
    }

    /** `Play`. */
    method Play(stream: AudioStream, bus: string, volume: real)
      requires Valid()
      modifies pool
      ensures pool == old(pool)
      ensures match old(FirstFree(pool, 0))
              case None => forall j :: 0 <= j < |pool| ==> pool[j].State() == old(pool[j].State())
              case Some(k) =>
                (forall j :: 0 <= j < |pool| && j != k ==> pool[j].State() == old(pool[j].State()))
                && pool[k].State() == old(pool[k].State()).(
                     stream := Some(stream), bus := bus, volume := volume, playing := true)
    {
      PlayOnFreePlayer(stream, bus, volume, None);
    }

    /** `PlayWithPitch`: as `Play`, with the player's pitch scale set first. */
    method PlayWithPitch(stream: AudioStream, bus: string, volume: real, pitch: real)
      requires Valid()
      modifies pool
      ensures pool == old(pool)
      ensures match old(FirstFree(pool, 0))
              case None => forall j :: 0 <= j < |pool| ==> pool[j].State() == old(pool[j].State())
              case Some(k) =>
                (forall j :: 0 <= j < |pool| && j != k ==> pool[j].State() == old(pool[j].State()))
                && pool[k].State() == old(pool[k].State()).(
                     stream := Some(stream), bus := bus, volume := volume, playing := true,
                     pitchScale := pitch)
    {
      PlayOnFreePlayer(stream, bus, volume, Some(pitch));
    }

    /** `PlayWithPitchRange`: `pitch` is the random draw `RandfRange(minPitch, maxPitch)`,
        which lies between the two bounds in either order. */
    method PlayWithPitchRange(stream: AudioStream, bus: string, volume: real,
                              minPitch: real, maxPitch: real, pitch: real)
      requires Valid()
      requires Between(minPitch, maxPitch, pitch)
      modifies pool
      ensures pool == old(pool)
      ensures match old(FirstFree(pool, 0))
              case None => forall j :: 0 <= j < |pool| ==> pool[j].State() == old(pool[j].State())
              case Some(k) =>
                (forall j :: 0 <= j < |pool| && j != k ==> pool[j].State() == old(pool[j].State()))
                && pool[k].State() == old(pool[k].State()).(
                     stream := Some(stream), bus := bus, volume := volume, playing := true,
                     pitchScale := pitch)
                && Between(minPitch, maxPitch, pool[k].pitchScale)
    {
      PlayOnFreePlayer(stream, bus, volume, Some(pitch));
    }

    /** `PlayRandomStream`, `PlayRandomStreamWithPitch` and `PlayRandomStreamWithPitchRange`
        share their gate: an empty list, a muted bus or an unknown bus plays nothing;
        otherwise `streams[pick]` (the random element) is played. `pitch` is `None` for
        `PlayRandomStream` and the fixed or drawn pitch for the other two. */
    method PlayRandom(streams: seq<AudioStream>, pick: nat, bus: string, volume: real,
                      pitch: Option<real>, availableBuses: seq<string>, mutedBuses: set<string>)
      requires Valid()
      requires streams != [] ==> pick < |streams|
      modifies pool
      ensures pool == old(pool)
      ensures streams == [] || bus in mutedBuses || bus !in availableBuses ==>
                forall j :: 0 <= j < |pool| ==> pool[j].State() == old(pool[j].State())
      ensures streams != [] && bus !in mutedBuses && bus in availableBuses ==>
                match old(FirstFree(pool, 0))
                case None => forall j :: 0 <= j < |pool| ==> pool[j].State() == old(pool[j].State())
                case Some(k) =>
                  (forall j :: 0 <= j < |pool| && j != k ==> pool[j].State() == old(pool[j].State()))
                  && pool[k].State() == old(pool[k].State()).(
                       stream := Some(streams[pick]), bus := bus, volume := volume, playing := true,
                       pitchScale := if pitch.Some? then pitch.value else old(pool[k].pitchScale))
    {
      if streams == [] || bus in mutedBuses || bus !in availableBuses {
        return;
      }
      PlayOnFreePlayer(streams[pick], bus, volume, pitch);
    }

    /** `StopStreamsFromBus(string)`: for a known bus, stops exactly the players whose bus
        equals it ignoring case. */
    method StopStreamsFromBus(bus: string, availableBuses: seq<string>)
      requires Valid()
      modifies pool
      ensures pool == old(pool)
      ensures bus !in availableBuses ==>
                forall j :: 0 <= j < |pool| ==> pool[j].State() == old(pool[j].State())
      ensures bus in availableBuses ==>
                forall j :: 0 <= j < |pool| ==>
                  pool[j].State() == old(pool[j].State()).(
                    playing := old(pool[j].playing) && !EqualsIgnoreCase(old(pool[j].bus), bus))
    {
      if bus in availableBuses {
        for i := 0 to |pool|
          invariant forall j :: 0 <= j < i ==>
                      pool[j].State() == old(pool[j].State()).(
                        playing := old(pool[j].playing) && !EqualsIgnoreCase(old(pool[j].bus), bus))
          invariant forall j :: i <= j < |pool| ==> pool[j].State() == old(pool[j].State())
        {
          var audioPlayer := pool[i];
          if EqualsIgnoreCase(audioPlayer.bus, bus) {
            audioPlayer.playing := false;
          }
        }
      }
    }
  }
}
