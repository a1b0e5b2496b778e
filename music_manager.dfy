/** `MusicManager`: a bank of named music streams and two players between which the
    music crossfades. The two players are records held by the manager and named by
    `PlayerId`; the volume tween is reduced to its final callback, which the engine
    runs later and which is modelled by `CompleteCrossfade`. */
module MusicManager {
  import opened Common
  import SoundPool

  type AudioStream = SoundPool.AudioStream

  const VOLUME_DB_INAUDIBLE: real := -80.0
  const MUSIC_BUS: string := "Music"

  datatype PlayerId = Main | Secondary

  /** The other of the two players: the crossfade target. */
  function Other(p: PlayerId): (r: PlayerId)
    ensures r != p
  {
    if p == Main then Secondary else Main
  }

  datatype MusicPlayerState = MusicPlayerState(
    name: string, bus: string, stream: Option<AudioStream>, playing: bool, volumeDb: real)

  datatype MusicEvent =
    | AddedMusicToBank(name: string, stream: AudioStream)
    | RemovedMusicFromBank(name: string)
    | ChangedStream(from: AudioStream, to: AudioStream)
    | StartedStream(player: PlayerId, newStream: AudioStream)
    | FinishedStream(player: PlayerId, oldStream: Option<AudioStream>)

  /** `PlayStream`: stop, load the stream, play. */
  function PlayStreamOn(p: MusicPlayerState, stream: AudioStream): (r: MusicPlayerState)
    ensures r.stream == Some(stream) && r.playing
    ensures r.name == p.name && r.bus == p.bus && r.volumeDb == p.volumeDb
  {
    p.(stream := Some(stream), playing := true)
  }

  /** The `ChangedStream` notification, raised only when a previous stream exists. */
  function ChangedStreamEvents(previous: Option<AudioStream>, stream: AudioStream): (r: seq<MusicEvent>)
    ensures previous.None? <==> r == []
    ensures previous.Some? ==> r == [ChangedStream(previous.value, stream)]
  {
    match previous
    case None => []
    case Some(p) => [ChangedStream(p, stream)]
  }

  /** The bank after adding `streams` one by one, and whether an `Add` threw on a name
      already present (which stops the batch). */
  function BankAfterAdds(bank: map<string, AudioStream>, streams: seq<(string, AudioStream)>)
    : (r: (map<string, AudioStream>, bool))
    decreases |streams|
  {
    if streams == [] then (bank, false)
    else if streams[0].0 in bank then (bank, true)
    else BankAfterAdds(bank[streams[0].0 := streams[0].1], streams[1..])
  }

  /** The bank after removing `names` one by one. */
  function BankAfterRemoves(bank: map<string, AudioStream>, names: seq<string>): map<string, AudioStream> {
    if names == [] then bank else BankAfterRemoves(bank - {names[0]}, names[1..])
  }

  function NameSet(streams: seq<(string, AudioStream)>): set<string> {
    set i | 0 <= i < |streams| :: streams[i].0
  }

  /** Adding names the bank lacks never throws and leaves every old entry and every new
      pair in the bank. */
  lemma {:induction false} AddsWithoutCollision(bank: map<string, AudioStream>, streams: seq<(string, AudioStream)>)
    requires forall i, j :: 0 <= i < j < |streams| ==> streams[i].0 != streams[j].0
    requires forall i :: 0 <= i < |streams| ==> streams[i].0 !in bank
    ensures !BankAfterAdds(bank, streams).1
    ensures BankAfterAdds(bank, streams).0.Keys == bank.Keys + NameSet(streams)
    ensures forall k :: k in bank ==> BankAfterAdds(bank, streams).0[k] == bank[k]
    ensures forall i :: 0 <= i < |streams| ==> BankAfterAdds(bank, streams).0[streams[i].0] == streams[i].1
    decreases |streams|
  {
    if streams != [] {
      var b := bank[streams[0].0 := streams[0].1];
      var rest := streams[1..];
      forall i | 0 <= i < |rest| ensures rest[i].0 !in b {
        assert rest[i] == streams[i + 1];
      }
      AddsWithoutCollision(b, rest);
      assert NameSet(streams) == {streams[0].0} + NameSet(rest) by {
        forall x | x in NameSet(streams) ensures x in {streams[0].0} + NameSet(rest) {
          var i :| 0 <= i < |streams| && streams[i].0 == x;
          if i > 0 {
            assert rest[i - 1] == streams[i];
          }
        }
        forall x | x in NameSet(rest) ensures x in NameSet(streams) {
          var i :| 0 <= i < |rest| && rest[i].0 == x;
          assert streams[i + 1] == rest[i];
        }
      }
      forall i | 0 <= i < |streams| ensures BankAfterAdds(bank, streams).0[streams[i].0] == streams[i].1 {
        if i > 0 {
          assert rest[i - 1] == streams[i];
        }
      }
    }
  }

  /** Removing a list of names removes exactly those names. */
  lemma {:induction false} RemovesAreSetDifference(bank: map<string, AudioStream>, names: seq<string>)
    ensures BankAfterRemoves(bank, names) == bank - (set i | 0 <= i < |names| :: names[i])
    decreases |names|
  {
    if names == [] {
      assert bank - {} == bank;
    } else {
      RemovesAreSetDifference(bank - {names[0]}, names[1..]);
      var all := set i | 0 <= i < |names| :: names[i];
      var rest := set i | 0 <= i < |names[1..]| :: names[1..][i];
      assert all == {names[0]} + rest by {
        forall x | x in all ensures x in {names[0]} + rest {
          var i :| 0 <= i < |names| && names[i] == x;
          if i > 0 {
            assert names[1..][i - 1] == x;
          }
        }
        forall x | x in rest ensures x in all {
          var i :| 0 <= i < |names[1..]| && names[1..][i] == x;
          assert names[i + 1] == x;
        }
      }
    }
  }

  class MusicManager {
    var musicBank: map<string, AudioStream>
    var main: MusicPlayerState
    var secondary: MusicPlayerState
    var current: PlayerId
    /** Events raised, oldest first. */
    var events: seq<MusicEvent>
    /** Names reported through `GD.PushError`, oldest first. */
    var errors: seq<string>
    /** Crossfade callbacks queued on tweens and not yet run: each makes its player current. */
    var pendingSwitches: seq<PlayerId>

    function Player(p: PlayerId): MusicPlayerState
      reads this
    {
      if p == Main then main else secondary
    }

    /** `_Ready` (`CreateAudioStreamPlayers`): two idle players on the music bus, the main
        one current, and an empty bank. */
    constructor()
      ensures musicBank == map[] && current == Main
      ensures main == MusicPlayerState("MainAudioStreamPlayer", MUSIC_BUS, None, false, 0.0)
      ensures secondary == MusicPlayerState("SecondaryAudioStreamPlayer", MUSIC_BUS, None, false, 0.0)
      ensures events == [] && errors == [] && pendingSwitches == []
    {
      musicBank := map[];
      main := MusicPlayerState("MainAudioStreamPlayer", MUSIC_BUS, None, false, 0.0);
      secondary := MusicPlayerState("SecondaryAudioStreamPlayer", MUSIC_BUS, None, false, 0.0);
      current := Main;
      events := [];
      errors := [];
      pendingSwitches := [];
    }

    method SetPlayer(p: PlayerId, state: MusicPlayerState)
      modifies this
      ensures Player(p) == state && Player(Other(p)) == old(Player(Other(p)))
      ensures musicBank == old(musicBank) && current == old(current) && events == old(events)
      ensures errors == old(errors) && pendingSwitches == old(pendingSwitches)
    {
      if p == Main {
        main := state;
      } else {
        secondary := state;
      }
    }

    /** `PlayStream`: plays `stream` on `p` and raises `StartedStream`. */
    method PlayStream(p: PlayerId, stream: AudioStream)
      modifies this
      ensures Player(p) == PlayStreamOn(old(Player(p)), stream)
      ensures Player(Other(p)) == old(Player(Other(p)))
      ensures events == old(events) + [StartedStream(p, stream)]
      ensures musicBank == old(musicBank) && current == old(current)
      ensures errors == old(errors) && pendingSwitches == old(pendingSwitches)
    {
      SetPlayer(p, PlayStreamOn(Player(p), stream));
      events := events + [StartedStream(p, stream)];
    }

    /** `PlayMusic`. An unknown name is reported and changes nothing else; the stream the
        current player is already playing is left alone; otherwise `ChangedStream` (when
        there was a previous stream) and `StartedStream` fire, and the stream plays on the
        other player with a switch queued (crossfade) or on the current player. */
    method PlayMusic(streamName: string, crossfade: bool)
      modifies this
      ensures musicBank == old(musicBank)
      ensures streamName !in old(musicBank) ==>
                errors == old(errors) + [streamName] && events == old(events)
                && main == old(main) && secondary == old(secondary) && current == old(current)
                && pendingSwitches == old(pendingSwitches)
      ensures streamName in old(musicBank) ==> errors == old(errors)
      ensures streamName in old(musicBank)
              && old(Player(current).playing) && old(Player(current).stream) == Some(old(musicBank)[streamName]) ==>
                events == old(events) && main == old(main) && secondary == old(secondary)
                && current == old(current) && pendingSwitches == old(pendingSwitches)
      ensures streamName in old(musicBank)
              && !(old(Player(current).playing) && old(Player(current).stream) == Some(old(musicBank)[streamName])) ==>
                var stream := old(musicBank)[streamName];
                var target := if crossfade then Other(old(current)) else old(current);
                current == old(current)
                && events == old(events) + ChangedStreamEvents(old(Player(current).stream), stream)
                             + [StartedStream(target, stream)]
                && Player(target) == PlayStreamOn(
                     if crossfade then old(Player(target)).(volumeDb := VOLUME_DB_INAUDIBLE) else old(Player(target)),
                     stream)
                && Player(Other(target)) == old(Player(Other(target)))
                && pendingSwitches == old(pendingSwitches) + (if crossfade then [target] else [])
    {
      if streamName in musicBank {
        var stream := musicBank[streamName];
        var currentPlayer := Player(current);
        if currentPlayer.playing && currentPlayer.stream == Some(stream) {
          return;
        }
        var previousStream := currentPlayer.stream;
        if crossfade {
          var nextAudioStreamPlayer := Other(current);
          events := events + ChangedStreamEvents(previousStream, stream);
          SetPlayer(nextAudioStreamPlayer, Player(nextAudioStreamPlayer).(volumeDb := VOLUME_DB_INAUDIBLE));
          PlayStream(nextAudioStreamPlayer, stream);
          pendingSwitches := pendingSwitches + [nextAudioStreamPlayer];
          return;
        }
        events := events + ChangedStreamEvents(previousStream, stream);
        PlayStream(current, stream);
        return;
      }
      errors := errors + [streamName];
    }

    /** The tween's final callback: the player it names becomes current. */
    method CompleteCrossfade()
      requires pendingSwitches != []
      modifies this
      ensures current == old(pendingSwitches[0]) && pendingSwitches == old(pendingSwitches[1..])
      ensures musicBank == old(musicBank) && main == old(main) && secondary == old(secondary)
      ensures events == old(events) && errors == old(errors)
    {
      current := pendingSwitches[0];
      pendingSwitches := pendingSwitches[1..];
    }

    /** The `Finished` signal of either player. The engine emits it once playback has
        ended, so the player is no longer playing (its stream stays loaded), and the
        handler raises `FinishedStream` with that stream. */
    method OnFinishedAudioStreamPlayer(p: PlayerId)
      modifies this
      ensures Player(p) == old(Player(p)).(playing := false)
      ensures Player(Other(p)) == old(Player(Other(p)))
      ensures events == old(events) + [FinishedStream(p, old(Player(p).stream))]
      ensures musicBank == old(musicBank) && current == old(current)
      ensures errors == old(errors) && pendingSwitches == old(pendingSwitches)
    {
      SetPlayer(p, Player(p).(playing := false));
      events := events + [FinishedStream(p, Player(p).stream)];
    }

    /** `AddStreamToMusicBank`: `Add` then `AddedMusicToBank`; a name already present
        throws (`thrown`) before anything changes. */
    method AddStreamToMusicBank(stream: AudioStream, name: string) returns (thrown: bool)
      modifies this
      ensures thrown <==> name in old(musicBank)
      ensures thrown ==> musicBank == old(musicBank) && events == old(events)
      ensures !thrown ==> musicBank == old(musicBank)[name := stream]
                          && events == old(events) + [AddedMusicToBank(name, stream)]
      ensures main == old(main) && secondary == old(secondary) && current == old(current)
      ensures errors == old(errors) && pendingSwitches == old(pendingSwitches)
    {
      if name in musicBank {
        return true;
      }
      musicBank := musicBank[name := stream];
      events := events + [AddedMusicToBank(name, stream)];
      return false;
    }

    /** `AddStreamsToMusicBank`: the pairs in the dictionary's enumeration order; the first
        name already present throws and ends the batch. */
    method AddStreamsToMusicBank(streams: seq<(string, AudioStream)>) returns (thrown: bool)
      requires forall i, j :: 0 <= i < j < |streams| ==> streams[i].0 != streams[j].0
      modifies this
      ensures (musicBank, thrown) == BankAfterAdds(old(musicBank), streams)
      ensures main == old(main) && secondary == old(secondary) && current == old(current)
      ensures errors == old(errors) && pendingSwitches == old(pendingSwitches)
    {
      var i := 0;
      while i < |streams|
        invariant 0 <= i <= |streams|
        invariant BankAfterAdds(musicBank, streams[i..]) == BankAfterAdds(old(musicBank), streams)
        invariant main == old(main) && secondary == old(secondary) && current == old(current)
        invariant errors == old(errors) && pendingSwitches == old(pendingSwitches)
      {
        var (name, stream) := streams[i];
        assert streams[i..][1..] == streams[i + 1..];
        thrown := AddStreamToMusicBank(stream, name);
        if thrown {
          return;
        }
        i := i + 1;
      }
      return false;
    }

    /** `RemoveStreamMusicFromBank(string)`: `RemovedMusicFromBank` fires only when the
        name was present. */
    method RemoveStreamMusicFromBank(name: string)
      modifies this
      ensures musicBank == old(musicBank) - {name}
      ensures events == old(events) + (if name in old(musicBank) then [RemovedMusicFromBank(name)] else [])
      ensures main == old(main) && secondary == old(secondary) && current == old(current)
      ensures errors == old(errors) && pendingSwitches == old(pendingSwitches)
    {
      if name in musicBank {
        musicBank := musicBank - {name};
        events := events + [RemovedMusicFromBank(name)];
      } else {
        assert musicBank - {name} == musicBank;
      }
    }

    /** `RemoveStreamsFromBank`: each name in order. */
    method RemoveStreamsFromBank(names: seq<string>)
      modifies this
      ensures musicBank == BankAfterRemoves(old(musicBank), names)
      ensures main == old(main) && secondary == old(secondary) && current == old(current)
      ensures errors == old(errors) && pendingSwitches == old(pendingSwitches)
    {
      for i := 0 to |names|
        invariant BankAfterRemoves(musicBank, names[i..]) == BankAfterRemoves(old(musicBank), names)
        invariant main == old(main) && secondary == old(secondary) && current == old(current)
        invariant errors == old(errors) && pendingSwitches == old(pendingSwitches)
      {
        assert names[i..][1..] == names[i + 1..];
        RemoveStreamMusicFromBank(names[i]);
      }
      assert names[|names|..] == [];
    }

    /** `RemoveStreamMusicFromBank(AudioStream)`: some entry holding `stream` is removed
        (the first in the dictionary's enumeration order); with none, nothing changes. */
    method RemoveStreamMusicFromBankByStream(stream: AudioStream)
      modifies this
      ensures (forall k :: k in old(musicBank) ==> old(musicBank)[k] != stream) ==>
                musicBank == old(musicBank) && events == old(events)
      ensures (exists k :: k in old(musicBank) && old(musicBank)[k] == stream) ==>
                exists k :: k in old(musicBank) && old(musicBank)[k] == stream
                  && musicBank == old(musicBank) - {k}
                  && events == old(events) + [RemovedMusicFromBank(k)]
      ensures main == old(main) && secondary == old(secondary) && current == old(current)
      ensures errors == old(errors) && pendingSwitches == old(pendingSwitches)
    {
      if k :| k in musicBank && musicBank[k] == stream {
        RemoveStreamMusicFromBank(k);
      }
    }
  }

  /** A track that played to its end is started again by a second request for it: the
      `Finished` signal cleared `Playing`, so `PlayMusic` no longer takes its no-op branch. */
  method ReplayAfterFinished(m: MusicManager, streamName: string)
    requires streamName in m.musicBank
    modifies m
    ensures m.musicBank == old(m.musicBank) && m.current == old(m.current)
    ensures m.Player(m.current).playing && m.Player(m.current).stream == Some(m.musicBank[streamName])
    ensures |m.events| > 0 && m.events[|m.events| - 1] == StartedStream(m.current, m.musicBank[streamName])
  {
    m.PlayMusic(streamName, false);
    m.OnFinishedAudioStreamPlayer(m.current);
    m.PlayMusic(streamName, false);
  }

  /** A crossfade followed by its callback leaves the other player current and playing
      the requested stream; a second request for the same stream is then a no-op. */
  method CrossfadeSwitchesPlayer(m: MusicManager, streamName: string)
    requires streamName in m.musicBank && m.pendingSwitches == []
    requires !(m.Player(m.current).playing && m.Player(m.current).stream == Some(m.musicBank[streamName]))
    modifies m
    ensures m.musicBank == old(m.musicBank) && m.current == Other(old(m.current))
    ensures m.Player(m.current).playing && m.Player(m.current).stream == Some(m.musicBank[streamName])
    ensures m.pendingSwitches == []
  {
    m.PlayMusic(streamName, true);
    m.CompleteCrossfade();
    var events := m.events;
    m.PlayMusic(streamName, true);
    assert m.events == events && m.pendingSwitches == [];
  }
}
