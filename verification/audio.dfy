/** The sound registry (Sound in Sound.cpp): a map from keyword pointer to
    secondary buffer, and a list of duplicated buffers playing one-shot
    copies. Buffers are abstract records; a slot is a buffer pointer that
    may be null. std::map::operator[] inserts a null slot for a missing key. */
module Audio {
  import opened Common

  /** The state of a DirectSound buffer the model tracks. */
  datatype SoundBuffer = SoundBuffer(id: nat, playing: bool, looping: bool, position: nat)

  /** A buffer pointer. */
  datatype Slot = NullBuffer | Live(buffer: SoundBuffer)

  datatype Sound = Sound(buffers: map<CStr, Slot>, duplicates: seq<Slot>)

  /** DSBPLAY_LOOPING. */
  const PlayLooping: bv32 := 1

  /** The flags word Sound::Play passes: `DSBPLAY_LOOPING & loop_bit`. */
  function PlayFlags(isLoop: bool): (flags: bv32)
    ensures (flags & PlayLooping != 0) <==> isLoop
    ensures flags & !PlayLooping == 0
  {
    var loopBit: bv32 := if isLoop then PlayLooping else 0;
    PlayLooping & loopBit
  }

  /** Starting a buffer with the given flags. */
  function Started(b: SoundBuffer, flags: bv32): SoundBuffer
  {
    b.(playing := true, looping := flags & PlayLooping != 0)
  }

  /** Sound::Play. A missing keyword changes nothing; a present keyword whose
      slot is null is dereferenced. */
  function Play(s: Sound, keyword: CStr, isLoop: bool): (r: Outcome<Sound>)
    ensures keyword !in s.buffers ==> r == Done(s)
    ensures r.NullDereference? <==> keyword in s.buffers && s.buffers[keyword].NullBuffer?
    ensures r.Done? && keyword in s.buffers ==>
      var b := s.buffers[keyword].buffer;
      && r.value.buffers == s.buffers[keyword := Live(b.(playing := true, looping := isLoop))]
      && r.value.duplicates == s.duplicates
  {
    if keyword !in s.buffers then Done(s)
    else
      match s.buffers[keyword]
      case NullBuffer => NullDereference
      case Live(b) => Done(s.(buffers := s.buffers[keyword := Live(Started(b, PlayFlags(isLoop)))]))
  }

  /** Sound::PlayDuplicate. `duplicate` is the buffer DuplicateSoundBuffer
      writes, null when it fails (as it must for a null original). The new
      entry is appended and started without looping. */
  function PlayDuplicate(s: Sound, keyword: CStr, duplicate: Slot): (r: Outcome<Sound>)
    ensures keyword !in s.buffers ==> r == Done(s)
    ensures r.NullDereference? <==>
      keyword in s.buffers && (s.buffers[keyword].NullBuffer? || duplicate.NullBuffer?)
    ensures r.Done? && keyword in s.buffers ==>
      && r.value.buffers == s.buffers
      && |r.value.duplicates| == |s.duplicates| + 1
      && r.value.duplicates[..|s.duplicates|] == s.duplicates
      && duplicate.Live?
      && r.value.duplicates[|s.duplicates|] == Live(duplicate.buffer.(playing := true, looping := false))
  {
    if keyword !in s.buffers then Done(s)
    else
      // A null original makes DuplicateSoundBuffer fail, leaving the new entry null.
      var copy := if s.buffers[keyword].NullBuffer? then NullBuffer else duplicate;
      match copy
      case NullBuffer => NullDereference
      case Live(b) => Done(s.(duplicates := s.duplicates + [Live(Started(b, 0))]))
  }

  /** Sound::Stop. It looks the keyword up with operator[], so a missing
      keyword gains a null slot; a live buffer is stopped and rewound. */
  function Stop(s: Sound, keyword: CStr): (r: Sound)
    ensures r.duplicates == s.duplicates
    ensures keyword in r.buffers && r.buffers.Keys == s.buffers.Keys + {keyword}
    ensures keyword !in s.buffers ==> r.buffers[keyword] == NullBuffer
    ensures keyword in s.buffers && s.buffers[keyword].NullBuffer? ==> r == s
    ensures keyword in s.buffers && s.buffers[keyword].Live? ==>
      r.buffers[keyword] == Live(s.buffers[keyword].buffer.(playing := false, position := 0))
    ensures forall k :: k in s.buffers && k != keyword ==> r.buffers[k] == s.buffers[k]
  {
    if keyword !in s.buffers then s.(buffers := s.buffers[keyword := NullBuffer])
    else
      match s.buffers[keyword]
      case NullBuffer => s
      case Live(b) => s.(buffers := s.buffers[keyword := Live(b.(playing := false, position := 0))])
  }

  /** Sound::ReleaseSoundFile. A present keyword is removed (its buffer is
      stopped first, which follows a null slot); other keys are untouched. */
  function ReleaseSoundFile(s: Sound, keyword: CStr): (r: Outcome<Sound>)
    ensures r.NullDereference? <==> keyword in s.buffers && s.buffers[keyword].NullBuffer?
    ensures keyword !in s.buffers ==> r == Done(s)
    ensures r.Done? ==>
      && r.value.buffers.Keys == s.buffers.Keys - {keyword}
      && r.value.duplicates == s.duplicates
      && forall k :: k in r.value.buffers ==> r.value.buffers[k] == s.buffers[k]
  {
    if keyword !in s.buffers then Done(s)
    else if s.buffers[keyword].NullBuffer? then NullDereference
    else Done(s.(buffers := s.buffers - {keyword}))
  }

  /** Sound::ReleaseAllSoundFiles: null slots are skipped, then the map is cleared. */
  function ReleaseAllSoundFiles(s: Sound): (r: Sound)
    ensures |r.buffers| == 0 && r.duplicates == s.duplicates
  {
    s.(buffers := map[])
  }

  /** Sound::Release: both the map and the duplicate list end up empty. */
  function Release(s: Sound): (r: Sound)
    ensures |r.buffers| == 0 && |r.duplicates| == 0
  {
    ReleaseAllSoundFiles(s).(duplicates := [])
  }

  /** Sound::LoadSoundFile. `wavOk` is LoadWavFile's result, `created` the
      buffer CreateSoundBuffer writes into `m_BufferList[keyword]` (null on
      failure) and `lockOk` whether locking it for the copy succeeded. */
  function LoadSoundFile(s: Sound, keyword: CStr, wavOk: bool, created: Slot, lockOk: bool): (r: (bool, Sound))
    ensures !wavOk ==> r == (false, s)
    ensures r.0 <==> wavOk && created.Live? && lockOk
    ensures wavOk ==>
      && r.1.buffers == s.buffers[keyword := created]
      && r.1.duplicates == s.duplicates
  {
    if !wavOk then (false, s)
    else
      var inserted := s.(buffers := s.buffers[keyword := created]);
      (created.Live? && lockOk, inserted)
  }

  /** Loading a fresh keyword successfully and then releasing it restores the registry. */
  lemma LoadThenReleaseSound(s: Sound, keyword: CStr, b: SoundBuffer)
    requires keyword !in s.buffers
    ensures LoadSoundFile(s, keyword, true, Live(b), true).0
    ensures ReleaseSoundFile(LoadSoundFile(s, keyword, true, Live(b), true).1, keyword) == Done(s)
  {
    var loaded := LoadSoundFile(s, keyword, true, Live(b), true).1;
    assert loaded.buffers - {keyword} == s.buffers;
  }

  /** As written: when CreateSoundBuffer fails, the load reports failure but
      leaves a null slot under the keyword, and releasing that keyword then
      dereferences it. */
  lemma FailedLoadThenReleaseDereferencesNull(s: Sound, keyword: CStr, lockOk: bool)
    ensures !LoadSoundFile(s, keyword, true, NullBuffer, lockOk).0
    ensures ReleaseSoundFile(LoadSoundFile(s, keyword, true, NullBuffer, lockOk).1, keyword).NullDereference?
  {
  }

  /** A duplicate survives EraseDuplicateSound when it is non-null and still playing. */
  predicate Survives(slot: Slot)
  {
    slot.Live? && slot.buffer.playing
  }

  /** The duplicates that survive, in their original order. */
  function StillPlaying(slots: seq<Slot>): (r: seq<Slot>)
    ensures |r| <= |slots|
  {
    if |slots| == 0 then []
    else (if Survives(slots[0]) then [slots[0]] else []) + StillPlaying(slots[1..])
  }

  /** Every kept entry survives, each surviving entry is kept as often as it
      occurs, and nothing else is kept. */
  lemma {:induction false} StillPlayingCounts(slots: seq<Slot>)
    ensures forall i :: 0 <= i < |StillPlaying(slots)| ==> Survives(StillPlaying(slots)[i])
    ensures forall slot :: Survives(slot) ==> multiset(StillPlaying(slots))[slot] == multiset(slots)[slot]
    ensures forall slot :: !Survives(slot) ==> multiset(StillPlaying(slots))[slot] == 0
  {
    if |slots| > 0 {
      StillPlayingCounts(slots[1..]);
      assert slots == [slots[0]] + slots[1..];
      assert multiset(slots) == multiset([slots[0]]) + multiset(slots[1..]);
    }
  }

  /** Filtering distributes over concatenation, so the kept entries keep
      their relative order. */
  lemma {:induction false} StillPlayingAppend(a: seq<Slot>, b: seq<Slot>)
    ensures StillPlaying(a + b) == StillPlaying(a) + StillPlaying(b)
  {
    if |a| == 0 {
      assert a + b == b;
    } else {
      var head := if Survives(a[0]) then [a[0]] else [];
      assert (a + b)[0] == a[0];
      assert (a + b)[1..] == a[1..] + b;
      StillPlayingAppend(a[1..], b);
      assert StillPlaying(a + b) == head + (StillPlaying(a[1..]) + StillPlaying(b));
      assert head + (StillPlaying(a[1..]) + StillPlaying(b)) == (head + StillPlaying(a[1..])) + StillPlaying(b);
    }
  }

  /** Filtering a list extended by one entry extends the result by that
      entry exactly when it survives. */
  lemma StillPlayingSnoc(a: seq<Slot>, slot: Slot)
    ensures StillPlaying(a + [slot]) == StillPlaying(a) + (if Survives(slot) then [slot] else [])
  {
    StillPlayingAppend(a, [slot]);
    assert [slot][1..] == [];
  }

  /** A list whose entries all survive is kept whole ... */
  lemma {:induction false} StillPlayingKeepsSurvivors(slots: seq<Slot>)
    requires forall i :: 0 <= i < |slots| ==> Survives(slots[i])
    ensures StillPlaying(slots) == slots
  {
    if |slots| > 0 {
      StillPlayingKeepsSurvivors(slots[1..]);
      assert slots == [slots[0]] + slots[1..];
    }
  }

  /** ... so filtering twice keeps what filtering once kept. */
  lemma StillPlayingIdempotent(slots: seq<Slot>)
    ensures StillPlaying(StillPlaying(slots)) == StillPlaying(slots)
  {
    StillPlayingCounts(slots);
    StillPlayingKeepsSurvivors(StillPlaying(slots));
  }

  /** Sound::EraseDuplicateSound: one pass over the list dropping null and
      stopped entries. The map is untouched. */
  method EraseDuplicateSound(s: Sound) returns (r: Sound)
    ensures r.buffers == s.buffers
    ensures r.duplicates == StillPlaying(s.duplicates)
  {
    var kept: seq<Slot> := [];
    var i := 0;
    while i < |s.duplicates|
      invariant 0 <= i <= |s.duplicates|
      invariant kept == StillPlaying(s.duplicates[..i])
    {
      var slot := s.duplicates[i];
      assert s.duplicates[..i + 1] == s.duplicates[..i] + [slot];
      StillPlayingSnoc(s.duplicates[..i], slot);
      if Survives(slot) {
        kept := kept + [slot];
      }
      i := i + 1;
    }
    assert s.duplicates[..i] == s.duplicates;
    r := s.(duplicates := kept);
  }

  /** An erase pass run on the state PlayDuplicate returns, before any
      playback ends, keeps what it kept before followed by the new duplicate. */
  lemma PlayDuplicateSurvivesErase(s: Sound, keyword: CStr, duplicate: Slot)
    requires PlayDuplicate(s, keyword, duplicate).Done? && keyword in s.buffers
    ensures StillPlaying(PlayDuplicate(s, keyword, duplicate).value.duplicates)
         == StillPlaying(s.duplicates) + [Live(duplicate.buffer.(playing := true, looping := false))]
  {
    StillPlayingSnoc(s.duplicates, Live(Started(duplicate.buffer, 0)));
  }

  /** The DirectSound mixer reaching the end of duplicate `i` without
      looping: the buffer stops playing, so its DSBSTATUS_PLAYING bit clears.
      This happens outside the program, between two frames. */
  function FinishPlayback(s: Sound, i: nat): (r: Sound)
    ensures r.buffers == s.buffers && |r.duplicates| == |s.duplicates|
    ensures forall j :: 0 <= j < |s.duplicates| && j != i ==> r.duplicates[j] == s.duplicates[j]
    ensures i < |s.duplicates| && s.duplicates[i].Live? && !s.duplicates[i].buffer.looping ==>
      r.duplicates[i] == Live(s.duplicates[i].buffer.(playing := false)) && !Survives(r.duplicates[i])
    ensures !(i < |s.duplicates| && s.duplicates[i].Live? && !s.duplicates[i].buffer.looping) ==> r == s
  {
    if i < |s.duplicates| && s.duplicates[i].Live? && !s.duplicates[i].buffer.looping then
      s.(duplicates := s.duplicates[i := Live(s.duplicates[i].buffer.(playing := false))])
    else s
  }

  /** Once the mixer has finished a duplicate started by PlayDuplicate, the
      next erase pass drops it and keeps exactly what it kept before. */
  lemma FinishedDuplicateIsErased(s: Sound, keyword: CStr, duplicate: Slot)
    requires PlayDuplicate(s, keyword, duplicate).Done? && keyword in s.buffers
    ensures StillPlaying(FinishPlayback(PlayDuplicate(s, keyword, duplicate).value, |s.duplicates|).duplicates)
         == StillPlaying(s.duplicates)
  {
    var finished := Live(duplicate.buffer.(playing := false, looping := false));
    assert FinishPlayback(PlayDuplicate(s, keyword, duplicate).value, |s.duplicates|).duplicates
        == s.duplicates + [finished];
    StillPlayingSnoc(s.duplicates, finished);
  }

  /** As written: stopping a keyword that was never loaded inserts a null
      slot, and playing it afterwards dereferences that null slot. */
  lemma StopThenPlayDereferencesNull(s: Sound, keyword: CStr, isLoop: bool)
    requires keyword !in s.buffers
    ensures Play(s, keyword, isLoop) == Done(s)
    ensures Play(Stop(s, keyword), keyword, isLoop).NullDereference?
  {
  }

  /** Sound::Play as evidently intended: a keyword with no live buffer, missing
      or null, changes nothing. */
  function PlayChecked(s: Sound, keyword: CStr, isLoop: bool): (r: Sound)
    ensures !(keyword in s.buffers && s.buffers[keyword].Live?) ==> r == s
    ensures Play(s, keyword, isLoop).Done? ==> r == Play(s, keyword, isLoop).value
  {
    if keyword in s.buffers && s.buffers[keyword].Live? then Play(s, keyword, isLoop).value else s
  }

  /** With the checked Play, stopping an unknown keyword and then playing it is harmless. */
  lemma StopThenPlayCheckedIsHarmless(s: Sound, keyword: CStr, isLoop: bool)
    requires keyword !in s.buffers
    ensures PlayChecked(Stop(s, keyword), keyword, isLoop) == Stop(s, keyword)
  {
  }
}
