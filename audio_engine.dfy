/** The overloads of SimpleAudioEngine that have bodies: each fills in
    default arguments and forwards to the full-arity member. The full-arity
    members are implemented by platform backends, so here they are either the
    request the overload issues (for the members that return nothing) or a
    function parameter standing for the backend (for playEffect, whose result
    the overload returns). Pitch, pan and gain are forwarded unchanged and no
    arithmetic is done on them, so they are modelled as reals. */
module SimpleAudioEngine {
  import opened UInt32
  import opened CString

  /** A file path, or the file name of a sound resource. */
  type Path = seq<byte>

  /** A call of a full-arity background-music member. */
  datatype MusicRequest =
    | PlayBackgroundMusic(path: Path, loop: bool)
    | StopBackgroundMusic(releaseData: bool)

  /** A call of the full-arity playEffect(path, loop, pitch, pan, gain). */
  datatype EffectRequest = PlayEffect(path: Path, loop: bool, pitch: real, pan: real, gain: real)

  /** The ranges the full-arity playEffect documents for its arguments: pan
      in [-1, 1] (-1 is the left channel only) and gain in [0, 1]. Pitch is
      documented only by its normal value 1.0. */
  predicate InDocumentedRanges(req: EffectRequest)
  {
    -1.0 <= req.pan <= 1.0 && 0.0 <= req.gain <= 1.0
  }

  /** The backend's playEffect: the sound id it returns for a request. It may
      be called on every request whose pan and gain lie in the documented
      ranges; what it does outside them is not documented. */
  type EffectBackend = backend: EffectRequest --> u32
    | forall req :: InDocumentedRanges(req) ==> backend.requires(req)
    witness (req: EffectRequest) requires InDocumentedRanges(req) => 0

  /** playBackgroundMusic(path): plays once, without looping. */
  function PlayBackgroundMusicOnce(path: Path): (req: MusicRequest)
    ensures req.PlayBackgroundMusic? && req.path == path && !req.loop
  {
    PlayBackgroundMusic(path, false)
  }

  /** stopBackgroundMusic(): stops without releasing the music data. */
  function StopBackgroundMusicKeepData(): (req: MusicRequest)
    ensures req.StopBackgroundMusic? && !req.releaseData
  {
    StopBackgroundMusic(false)
  }

  /** playEffect(path, loop): normal pitch 1.0, centred pan 0.0, full gain 1.0,
      and the backend's sound id is returned as it is. The defaults lie in the
      documented ranges, so the backend is only called where it is defined. */
  function PlayEffectWithLoop(backend: EffectBackend, path: Path, loop: bool): (id: u32)
    ensures id == backend(PlayEffect(path, loop, 1.0, 0.0, 1.0))
  {
    backend(PlayEffect(path, loop, 1.0, 0.0, 1.0))
  }

  /** playEffect(path): forwards to playEffect(path, false), so the backend
      sees the request with every default filled in. */
  function PlayEffectOnce(backend: EffectBackend, path: Path): (id: u32)
    ensures id == backend(PlayEffect(path, false, 1.0, 0.0, 1.0))
  {
    PlayEffectWithLoop(backend, path, false)
  }
}
