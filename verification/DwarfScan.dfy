/** The streaming search for embedded debug information. */
module DwarfScan {
  import opened Prelude

  type Bytes = seq<byte>

  const COPY_BUFFER_BYTES := 65_536
  const CARRY := 15

  const ELF_MAGIC: Bytes := [0x7f, 0x45, 0x4c, 0x46]

  /** `.debug_info` */
  const DEBUG_INFO: Bytes := [0x2e, 0x64, 0x65, 0x62, 0x75, 0x67, 0x5f, 0x69, 0x6e, 0x66, 0x6f]

  /** `.zdebug_info` */
  const ZDEBUG_INFO: Bytes := [0x2e, 0x7a, 0x64, 0x65, 0x62, 0x75, 0x67, 0x5f, 0x69, 0x6e, 0x66, 0x6f]

  predicate OccursAt(hay: Bytes, needle: Bytes, i: nat) {
    i + |needle| <= |hay| && hay[i..i + |needle|] == needle
  }

  predicate Contains(hay: Bytes, needle: Bytes) {
    exists i: nat :: i <= |hay| && OccursAt(hay, needle, i)
  }

  predicate HasMarker(hay: Bytes) {
    Contains(hay, DEBUG_INFO) || Contains(hay, ZDEBUG_INFO)
  }

  predicate HasDwarf(file: Bytes) {
    ELF_MAGIC <= file && HasMarker(file)
  }

  predicate IsMarker(needle: Bytes) {
    needle == DEBUG_INFO || needle == ZDEBUG_INFO
  }

  /** How many bytes one read asks for; `None` is a failing read. Entry 0 is the read of the first four bytes. */
  type Schedule = nat -> Option<nat>

  /** A read returns at least one byte unless the file is at its end, and never more than there is room for. */
  function ReadSize(wanted: nat, room: nat, left: nat): (n: nat)
    requires room > 0
    ensures n <= room && n <= left && (n == 0 <==> left == 0)
  {
    if left == 0 then 0 else if wanted == 0 then 1 else Min(wanted, Min(room, left))
  }

  /** A marker starts with a dot and the magic holds none, so no occurrence touches the four bytes read first. */
  lemma MagicHidesNothing(file: Bytes, i: nat, needle: Bytes)
    requires ELF_MAGIC <= file && IsMarker(needle) && OccursAt(file, needle, i)
    ensures i >= 4
  {
    assert file[i] == file[i..i + |needle|][0] == 0x2e;
    assert forall k :: 0 <= k < 4 ==> file[k] == ELF_MAGIC[k] != 0x2e;
  }

  /** A window shows an occurrence exactly when it covers one of the file's. */
  lemma WindowOccurrence(file: Bytes, start: nat, end: nat, needle: Bytes, i: nat)
    requires start <= end <= |file| && start <= i && i + |needle| <= end
    ensures OccursAt(file[start..end], needle, i - start) <==> OccursAt(file, needle, i)
  {
    var window := file[start..end];
    var shown, occurrence := window[i - start..i - start + |needle|], file[i..i + |needle|];
    forall k | 0 <= k < |needle| ensures shown[k] == occurrence[k] {
      assert shown[k] == window[i - start + k] == file[i + k];
    }
    assert shown == occurrence;
  }

  /** No marker lies wholly between the magic and `end`. */
  ghost predicate Clear(file: Bytes, end: nat) {
    forall i: nat, needle :: 4 <= i && IsMarker(needle) && i + |needle| <= end ==> !OccursAt(file, needle, i)
  }

  /** Carrying fifteen bytes is enough: an occurrence that reaches past `end` begins inside the window. */
  lemma ClearGrows(file: Bytes, start: nat, end: nat, next: nat)
    requires Clear(file, end) && 4 <= start <= end <= next <= |file|
    requires end - start == Min(CARRY, end - 4)
    requires !HasMarker(file[start..next])
    ensures Clear(file, next)
  {
    forall i: nat, needle | 4 <= i && IsMarker(needle) && i + |needle| <= next
      ensures !OccursAt(file, needle, i)
    {
      if i + |needle| > end {
        WindowOccurrence(file, start, next, needle, i);
        var window := file[start..next];
        var offset: nat := i - start;
        assert offset <= |window| && OccursAt(window, needle, offset) ==> Contains(window, needle);
      }
    }
  }

  lemma MarkerFound(file: Bytes, start: nat, end: nat)
    requires start <= end <= |file| && HasMarker(file[start..end])
    ensures HasMarker(file)
  {
    var window := file[start..end];
    var needle := if Contains(window, DEBUG_INFO) then DEBUG_INFO else ZDEBUG_INFO;
    var i: nat :| i <= |window| && OccursAt(window, needle, i);
    WindowOccurrence(file, start, end, needle, start + i);
    assert OccursAt(file, needle, start + i);
  }

  lemma ClearFileHasNone(file: Bytes)
    requires ELF_MAGIC <= file && Clear(file, |file|)
    ensures !HasMarker(file)
  {
    forall i: nat, needle | IsMarker(needle) && OccursAt(file, needle, i) ensures false {
      MagicHidesNothing(file, i, needle);
    }
    assert IsMarker(DEBUG_INFO) && IsMarker(ZDEBUG_INFO);
  }

  /** Copies file bytes into the buffer after what it retained. */
  method Fill(buffer: array<byte>, retained: nat, file: Bytes, position: nat, n: nat)
    requires retained <= position && position + n <= |file| && retained + n <= buffer.Length
    requires buffer[..retained] == file[position - retained..position]
    modifies buffer
    ensures buffer[..retained + n] == file[position - retained..position + n]
  {
    for i := 0 to n
      invariant buffer[..retained + i] == file[position - retained..position + i]
    {
      var next := file[position + i];
      buffer[retained + i] := next;
      assert buffer[..retained + i + 1] == buffer[..retained + i] + [next];
      assert file[position - retained..position + i + 1] == file[position - retained..position + i] + [next];
    }
  }

  /** `copy_within`: the last `keep` of the first `length` bytes move to the front. */
  method KeepTail(buffer: array<byte>, length: nat, keep: nat)
    requires keep <= length <= buffer.Length
    modifies buffer
    ensures buffer[..keep] == old(buffer[length - keep..length])
  {
    ghost var before := buffer[..];
    forall i | 0 <= i < keep {
      buffer[i] := buffer[length - keep + i];
    }
    assert forall i :: 0 <= i < keep ==> buffer[..keep][i] == before[length - keep + i];
    assert before[length - keep..length] == old(buffer[length - keep..length]);
  }

  /**
   * For every schedule of read sizes the answer is the whole-file one: the ELF
   * magic in front and a marker anywhere, across any buffer boundary. A file
   * that cannot be opened is an error. When the read of the magic fails the
   * answer is no, whatever the file holds. Only a failing read after it gives
   * an error, and only for an ELF file.
   */
  method ContainsEmbeddedDwarf(target: Option<Bytes>, schedule: Schedule) returns (r: Result<bool>)
    ensures target.None? ==> r == Err(ArtifactNotFound)
    ensures target.Some? && schedule(0).None? ==> r == Ok(false)
    ensures target.Some? && schedule(0).Some? && r.Ok? ==> r.value == HasDwarf(target.value)
    ensures target.Some? && r.Err? ==> ELF_MAGIC <= target.value && exists k :: 0 < k && schedule(k).None?
  {
    if target.None? {
      return Err(ArtifactNotFound);
    }
    var file := target.value;
    if schedule(0).None? || |file| < 4 || file[..4] != ELF_MAGIC {
      return Ok(false);
    }
    var buffer := new byte[COPY_BUFFER_BYTES + 16](_ => 0);
    var retained, position, calls := 0, 4, 1;
    while true
      invariant 4 <= position <= |file| && calls > 0
      invariant retained == Min(CARRY, position - 4)
      invariant buffer[..retained] == file[position - retained..position]
      invariant Clear(file, position)
      decreases |file| - position
    {
      var wanted := schedule(calls);
      if wanted.None? {
        return Err(ArtifactNotFound);
      }
      var read := ReadSize(wanted.value, buffer.Length - retained, |file| - position);
      Fill(buffer, retained, file, position, read);
      var length := retained + read;
      if HasMarker(buffer[..length]) {
        MarkerFound(file, position - retained, position + read);
        return Ok(true);
      }
      ClearGrows(file, position - retained, position, position + read);
      if read == 0 {
        ClearFileHasNone(file);
        return Ok(false);
      }
      retained := Min(length, CARRY);
      ghost var window := buffer[..length];
      KeepTail(buffer, length, retained);
      position, calls := position + read, calls + 1;
      assert window[length - retained..] == file[position - retained..position];
    }
  }
}
