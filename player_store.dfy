/** The shared player store: the track on air, whether it plays, and how far it has got. */
module PlayerStore {
  import opened Wrappers
  import opened Playlist

  /** The three data fields of the store, as one value. */
  datatype Snapshot = Snapshot(currentTrack: Option<Track>, isPlaying: bool, progress: real)

  class Store {
    var currentTrack: Option<Track>
    var isPlaying: bool
    /** A percentage in the page's use, but stored as given: nothing clamps it. */
    var progress: real

    function State(): Snapshot
      reads this
    {
      Snapshot(currentTrack, isPlaying, progress)
    }

    /** Nothing on air, paused, at the start. */
    constructor ()
      ensures State() == Snapshot(None, false, 0.0)
    {
      currentTrack := None;
      isPlaying := false;
      progress := 0.0;
    }

    /** `setTrack`: puts a track (or nothing) on air, playing from the start. */
    method SetTrack(track: Option<Track>)
      modifies this
      ensures State() == Snapshot(track, true, 0.0)
    {
      currentTrack, isPlaying, progress := track, true, 0.0;
    }

    /** `togglePlay`: flips playing and paused, nothing else. */
    method TogglePlay()
      modifies this
      ensures State() == old(State()).(isPlaying := !old(isPlaying))
    {
      isPlaying := !isPlaying;
    }

    /** `setIsPlaying`. */
    method SetIsPlaying(playing: bool)
      modifies this
      ensures State() == old(State()).(isPlaying := playing)
    {
      isPlaying := playing;
    }

    /** `setProgress`: any value, unclamped. */
    method SetProgress(p: real)
      modifies this
      ensures State() == old(State()).(progress := p)
    {
      progress := p;
    }
  }

  /** Toggling twice leaves the store as it was. */
  method ToggleTwice(s: Store)
    modifies s
    ensures s.State() == old(s.State())
  {
    s.TogglePlay();
    s.TogglePlay();
  }
}
