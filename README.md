# CocosDenshion SimpleAudioEngine: string hash and default-argument overloads

CocosDenshion's `SimpleAudioEngine` is the audio facade of cocos2d-x: one
background-music stream and any number of sound effects, played by a
platform backend. Its public header holds two pieces of logic. The first is
`getHashCodeByString`, a case-insensitive hash of a C string. In the header
its one use is `getClassTypeInfo`, which hashes the engine's type name into a
run-time type tag; any use for resource keys would be in backends that are
not part of this model. The second is a set of overloads that fill in default
arguments and forward to the full-arity members.

The hash starts at 0. For each byte of the NUL-terminated key, left to
right, it multiplies by the FNV 32-bit prime 16777619 modulo 2^32. Then it
exclusive-ors in the upper-cased byte. This is the FNV-1 step order with
offset basis 0 instead of FNV's 2166136261, so results differ from textbook
FNV-1.

Files:

- `uint32.dfy` (module `UInt32`): `unsigned int` values as naturals below
  2^32. Multiplication wraps modulo 2^32. Exclusive or is defined bit by bit
  and proved to act bitwise and to stay within 32 bits.
- `cstring.dfy` (module `CString`): bytes, NUL-terminated buffers, `strlen`
  and the C-locale `toupper`.
- `string_hash.dfy` (module `StringHash`): the recursive specification
  `Hash`, its front-to-back reading `Fold`, the lemmas about them, and the
  loop `GetHashCodeByString` proved equal to `Hash`.
- `audio_engine.dfy` (module `SimpleAudioEngine`): the forwarding overloads
  of `playBackgroundMusic`, `stopBackgroundMusic` and `playEffect`.

`unsigned int len = strlen(key)` converts `strlen`'s `size_t` to
`unsigned int`. Where `size_t` is wider, the length is kept modulo 2^32. The
model writes this out (`HashedLength`): a key of 2^32 bytes or more is hashed
over its first `strlen(key) mod 2^32` bytes only. For every shorter key the
whole C string is hashed.

## Model

| member | source | states |
|---|---|---|
| `UInt32.Mul32` | CocosDenshion/include/SimpleAudioEngine.h:51 | `hash *= 16777619` on `unsigned int`: the result is the 32-bit value congruent to the full product modulo 2^32 |
| `UInt32.Xor32` | CocosDenshion/include/SimpleAudioEngine.h:52 | `a ^ b` on `unsigned int` stays below 2^32, and each bit of the result is the sum of the operands' bits modulo 2 |
| `UInt32.XorBit` | CocosDenshion/include/SimpleAudioEngine.h:52 | the arithmetic exclusive or acts bitwise: bit k of the result is bit k of a plus bit k of b, modulo 2 |
| `UInt32.XorBound` | CocosDenshion/include/SimpleAudioEngine.h:47-52 | the exclusive or of two n-bit values is an n-bit value, so `hash ^= …` keeps hash within `unsigned int` |
| `CString.Strlen` | CocosDenshion/include/SimpleAudioEngine.h:45 | `strlen` is the offset of the first NUL: that byte is NUL and no byte before it is |
| `CString.Chars` | CocosDenshion/include/SimpleAudioEngine.h:45-46 | the C string `strlen` measures holds no NUL and, followed by the terminator, is a prefix of the buffer; it is the range from `key` to `end` for keys shorter than 2^32 bytes |
| `CString.Upper` | CocosDenshion/include/SimpleAudioEngine.h:52 | `toupper` maps each lower-case ASCII letter to the upper-case letter at the same alphabet position and leaves every other byte unchanged |
| `StringHash.HashShortKeys` | CocosDenshion/include/SimpleAudioEngine.h:49-52 | the empty key hashes to 0 (the loop never runs) and a one-byte key hashes to its upper-cased byte (0 times the prime is 0) |
| `StringHash.HashSnoc` | CocosDenshion/include/SimpleAudioEngine.h:49-53 | step law: hash(s + [c]) is `Step(hash(s), c)`, one loop iteration, that is ((hash(s) * 16777619) mod 2^32) xor upper(c) |
| `StringHash.HashConcat` | CocosDenshion/include/SimpleAudioEngine.h:49-53 | hashing s + t continues from hash(s) over the bytes of t, first byte first |
| `StringHash.HashIsLeftFold` | CocosDenshion/include/SimpleAudioEngine.h:49-53 | the hash is the left fold of the step over the key, starting from 0 |
| `StringHash.HashCaseInsensitive` | CocosDenshion/include/SimpleAudioEngine.h:52 | two keys that are equal once `toupper` is applied to each byte have the same hash |
| `StringHash.HashOfUpperAll` | CocosDenshion/include/SimpleAudioEngine.h:52 | a key and its upper-cased copy have the same hash |
| `StringHash.HashedLength` | CocosDenshion/include/SimpleAudioEngine.h:45 | the loop bound is the 32-bit value congruent to `strlen` modulo 2^32: never more than `strlen`, and equal to it for keys shorter than 2^32 bytes |
| `StringHash.GetHashCodeByString` | CocosDenshion/include/SimpleAudioEngine.h:43-55 | the loop returns the hash of exactly the bytes before `key + len`, each visited once in order, as a 32-bit value; for keys shorter than 2^32 bytes it is the hash of the whole C string |
| `SimpleAudioEngine.PlayBackgroundMusicOnce` | CocosDenshion/include/SimpleAudioEngine.h:101-103 | `playBackgroundMusic(path)` requests playback of the same path without looping |
| `SimpleAudioEngine.StopBackgroundMusicKeepData` | CocosDenshion/include/SimpleAudioEngine.h:115-117 | `stopBackgroundMusic()` requests a stop that keeps the music data |
| `SimpleAudioEngine.PlayEffectWithLoop` | CocosDenshion/include/SimpleAudioEngine.h:182-184 | `playEffect(path, loop)` returns the backend's id for the request with pitch 1.0, pan 0.0 and gain 1.0; the backend may be called only on requests with pan in [-1, 1] and gain in [0, 1], and the defaults are proved to lie there |
| `SimpleAudioEngine.PlayEffectOnce` | CocosDenshion/include/SimpleAudioEngine.h:191-193 | `playEffect(path)` goes through `playEffect(path, false)`, so the backend sees loop false, pitch 1.0, pan 0.0 and gain 1.0, and its id is returned unchanged |

## Left out

- The audio operations declared without bodies (preload, play, pause, resume, rewind and stop of music and effects, the volume getters and setters, `willPlayBackgroundMusic`, `isBackgroundMusicPlaying`). Their behaviour lives in platform backends that are not part of this model. The full-arity `playEffect` is a function parameter (`EffectBackend`), and the void full-arity members are the request values the overloads issue.
- `getClassTypeInfo`: it hashes `typeid(...).name()`, whose text depends on the compiler. The hash itself is modelled.
- `sharedEngine` and `end`: declarations only, about the lifetime of a global object.
- `CString.Upper`: models `toupper` in the C locale on the byte read as `unsigned char`. Locale-dependent upper-casing is not modelled. Passing a negative `char` (a byte of 0x80 or more where `char` is signed) to `toupper` is undefined in C; the model treats such bytes as unchanged.
- Floating point: pitch, pan and gain are reals that are only forwarded. No float semantics is modelled.
- `SimpleAudioEngine.PlayEffectWithLoop`: the `this->` dispatch on the engine object is a call of the backend function; which object receives the call is not modelled. The backend is a function of the request alone, so its state and effects, such as starting a new effect instance with a fresh id on every call, are not captured.
