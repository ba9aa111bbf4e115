/**
 * The volume, mute and play state of the background-music widget (`MusicPlayer`,
 * js/music-player.js). The audio element is reduced to its `volume`; the outcome
 * of `audio.play()`'s promise is an input.
 */
module Music {

  /** The player's fields and the audio element's volume, as one value. */
  datatype Player = Player(isPlaying: bool, isMuted: bool, volume: real, previousVolume: real, audioVolume: real)

  /** The state the constructor and `init` leave: paused, unmuted, everything at 0.5. */
  const Initial := Player(false, false, 0.5, 0.5, 0.5)

  function AfterMute(p: Player): Player
  {
    p.(previousVolume := p.audioVolume, audioVolume := 0.0, isMuted := true)
  }

  function AfterUnmute(p: Player): Player
  {
    p.(audioVolume := p.previousVolume, isMuted := false)
  }

  function AfterToggleMute(p: Player): Player
  {
    if p.isMuted then AfterUnmute(p) else AfterMute(p)
  }

  /** `setVolume(v)`: both volumes become v; a positive v unmutes, zero mutes; the saved volume is kept. */
  function AfterSetVolume(p: Player, v: real): Player
  {
    var q := p.(audioVolume := v, volume := v);
    if v > 0.0 && p.isMuted then q.(isMuted := false)
    else if v == 0.0 then q.(isMuted := true)
    else q
  }

  function AfterPause(p: Player): Player
  {
    p.(isPlaying := false)
  }

  /** `play()`: playing once the promise resolves; a rejection is only logged. */
  function AfterPlay(p: Player, resolves: bool): Player
  {
    if resolves then p.(isPlaying := true) else p
  }

  function AfterTogglePlay(p: Player, resolves: bool): Player
  {
    if p.isPlaying then AfterPause(p) else AfterPlay(p, resolves)
  }

  /** The condition `isMuted || audio.volume === 0` on which `updateVolumeIcon` picks the muted icon. */
  predicate ShowsMuteIcon(p: Player)
  {
    p.isMuted || p.audioVolume == 0.0
  }

  /** Volumes stay within the audio element's range [0, 1]. */
  predicate InRange(p: Player)
  {
    0.0 <= p.volume <= 1.0 && 0.0 <= p.previousVolume <= 1.0 && 0.0 <= p.audioVolume <= 1.0
  }

  /**
   * The invariant the controls keep: muted exactly when the audio is silent, and a
   * saved volume that is audible, so that unmuting is heard.
   */
  predicate Consistent(p: Player)
  {
    InRange(p) && (p.isMuted <==> p.audioVolume == 0.0) && p.previousVolume > 0.0
  }

  /** Mute then unmute gives back the audio volume and leaves the player unmuted, from any state. */
  lemma MuteThenUnmute(p: Player)
    ensures AfterUnmute(AfterMute(p)).audioVolume == p.audioVolume
    ensures !AfterUnmute(AfterMute(p)).isMuted
    ensures AfterMute(p).volume == p.volume
  {
  }

  /** From an unmuted state, two presses of the mute button change nothing but the saved volume. */
  lemma ToggleMuteTwice(p: Player)
    requires !p.isMuted
    ensures AfterToggleMute(AfterToggleMute(p)) == p.(previousVolume := p.audioVolume)
  {
  }

  /**
   * `setVolume(0)` mutes without saving the volume: the next press of the mute button
   * unmutes to the volume saved by the last real mute.
   */
  lemma SetVolumeZeroKeepsSaved(p: Player)
    ensures AfterSetVolume(p, 0.0).isMuted
    ensures AfterSetVolume(p, 0.0).previousVolume == p.previousVolume
    ensures AfterToggleMute(AfterSetVolume(p, 0.0)).audioVolume == p.previousVolume
  {
  }

  /** Sliding from 0.8 to 0 and pressing the mute button restores 0.5, not 0.8. */
  lemma SlideToZeroThenUnmute()
    ensures AfterToggleMute(AfterSetVolume(AfterSetVolume(Initial, 0.8), 0.0)).audioVolume == 0.5
  {
  }

  /** A positive volume unmutes, and the audio gets exactly that volume. */
  lemma SetVolumePositive(p: Player, v: real)
    requires v > 0.0
    ensures !AfterSetVolume(p, v).isMuted && AfterSetVolume(p, v).audioVolume == v
  {
  }

  /** The invariant holds at start and across every control the page wires up. */
  lemma ConsistentPreserved(p: Player, v: real, resolves: bool)
    requires Consistent(p)
    requires 0.0 <= v <= 1.0
    ensures Consistent(Initial)
    ensures Consistent(AfterToggleMute(p))
    ensures Consistent(AfterSetVolume(p, v))
    ensures Consistent(AfterPause(p)) && Consistent(AfterPlay(p, resolves))
    ensures Consistent(AfterTogglePlay(p, resolves))
  {
  }

  /** In a consistent state the icon check of `updateVolumeIcon` holds exactly when the player is muted. */
  lemma MuteIconIffMuted(p: Player)
    requires Consistent(p)
    ensures ShowsMuteIcon(p) <==> p.isMuted
  {
  }

  /** `mute` itself does not check `isMuted`: called twice it saves the silence, and unmuting stays silent. */
  lemma MuteTwiceLosesVolume(p: Player)
    ensures AfterUnmute(AfterMute(AfterMute(p))).audioVolume == 0.0
  {
  }

  /** Pausing always stops; toggling plays iff it was paused and the promise resolves; volumes are untouched. */
  lemma PlayPause(p: Player, resolves: bool)
    ensures !AfterPause(p).isPlaying
    ensures AfterTogglePlay(p, resolves).isPlaying <==> !p.isPlaying && resolves
    ensures AfterPlay(p, false) == p
    ensures AfterTogglePlay(p, resolves).(isPlaying := p.isPlaying) == p
  {
  }

  class MusicPlayer {
    var isPlaying: bool
    var isMuted: bool
    var volume: real
    var previousVolume: real
    var audioVolume: real

    function State(): Player
      reads this
    {
      Player(isPlaying, isMuted, volume, previousVolume, audioVolume)
    }

    constructor ()
      ensures State() == Initial
    {
      isPlaying := false;
      volume := 0.5;
      isMuted := false;
      previousVolume := 0.5;
      audioVolume := volume;
    }

    method TogglePlay(resolves: bool)
      modifies this
      ensures State() == AfterTogglePlay(old(State()), resolves)
    {
      if isPlaying {
        Pause();
      } else {
        Play(resolves);
      }
    }

    /** `resolves` is the outcome of the promise `audio.play()` returns. */
    method Play(resolves: bool)
      modifies this
      ensures State() == AfterPlay(old(State()), resolves)
    {
      if resolves {
        isPlaying := true;
      }
    }

    method Pause()
      modifies this
      ensures State() == AfterPause(old(State()))
    {
      isPlaying := false;
    }

    method ToggleMute()
      modifies this
      ensures State() == AfterToggleMute(old(State()))
    {
      if isMuted {
        Unmute();
      } else {
        Mute();
      }
    }

    method Mute()
      modifies this
      ensures State() == AfterMute(old(State()))
    {
      previousVolume := audioVolume;
      audioVolume := 0.0;
      isMuted := true;
    }

    method Unmute()
      modifies this
      ensures State() == AfterUnmute(old(State()))
    {
      audioVolume := previousVolume;
      isMuted := false;
    }

    /** The slider passes its position divided by 100, so v is within the audio element's range. */
    method SetVolume(v: real)
      requires 0.0 <= v <= 1.0
      modifies this
      ensures State() == AfterSetVolume(old(State()), v)
    {
      audioVolume := v;
      volume := v;
      if v > 0.0 && isMuted {
        isMuted := false;
      } else if v == 0.0 {
        isMuted := true;
      }
    }
  }
}
