/** The streaming redactor of the launcher: copies what a reader delivers, chunk by chunk, through one bounded
    buffer that it compacts in place. */
module RedactingCopy {
  import opened Bytes
  import opened Redaction

  const COPY_BUFFER_BYTES := 32 * 1024

  datatype Status = More | EndOfFile | Failure

  /** What one read delivers: possibly no bytes, possibly bytes together with the end or an error. */
  datatype Read = Read(bytes: seq<Byte>, status: Status)

  /** All bytes up to the read that ends the stream; a reader at its end keeps reporting end of file. */
  function Delivered(script: seq<Read>): seq<Byte> {
    if script == [] then []
    else if script[0].status != More then script[0].bytes
    else script[0].bytes + Delivered(script[1..])
  }

  function Outcome(script: seq<Read>): Status {
    if script == [] then EndOfFile
    else if script[0].status != More then script[0].status
    else Outcome(script[1..])
  }

  class Source {
    var script: seq<Read>

    /** Readers never deliver more than the buffer holds. */
    ghost predicate Fits(n: nat)
      reads this
    {
      forall i :: 0 <= i < |script| ==> |script[i].bytes| <= n
    }

    method Read(buffer: array<Byte>) returns (count: nat, status: Status)
      requires Fits(buffer.Length)
      modifies this, buffer
      ensures Fits(buffer.Length)
      ensures old(script) == [] ==> script == [] && count == 0 && status == EndOfFile
      ensures old(script) != [] ==> script == old(script)[1..] && count <= buffer.Length
                                    && buffer[..count] == old(script)[0].bytes && status == old(script)[0].status
    {
      if script == [] {
        return 0, EndOfFile;
      }
      var next := script[0];
      forall i | 0 <= i < |next.bytes| {
        buffer[i] := next.bytes[i];
      }
      script := script[1..];
      return |next.bytes|, next.status;
    }
  }

  /** How one write goes: it takes at most `limit` bytes, and may report an error. */
  datatype Take = Take(limit: nat, fails: bool)

  class Sink {
    var written: seq<Byte>
    var script: seq<Take>

    method Write(content: seq<Byte>) returns (count: nat, failed: bool)
      modifies this
      ensures count <= |content| && written == old(written) + content[..count]
      ensures Took(old(script), script)
      ensures content != [] ==> (Kept(old(script), script) <==> !failed && count > 0)
      ensures count == |content| && !failed <==> TakesWhole(old(script), content)
      ensures script == Next(old(script))
    {
      var take := if script == [] then Take(|content|, false) else script[0];
      script := Next(script);
      count := if take.limit < |content| then take.limit else |content|;
      failed := take.fails;
      written := written + content[..count];
    }
  }

  /** A sink whose script has run out takes everything. */
  function Next(takes: seq<Take>): seq<Take> { if takes == [] then [] else takes[1..] }

  predicate TakesWhole(takes: seq<Take>, content: seq<Byte>) {
    takes == [] || (|content| <= takes[0].limit && !takes[0].fails)
  }

  /** Every write makes progress: it takes some bytes, perhaps not all, and does not fail. */
  predicate Willing(takes: seq<Take>) { forall i :: 0 <= i < |takes| ==> takes[i].limit > 0 && !takes[i].fails }

  predicate Took(before: seq<Take>, after: seq<Take>) {
    |after| <= |before| && after == before[|before| - |after|..]
  }

  /** Every write that was made, between these two states of the script, made progress. */
  predicate Kept(before: seq<Take>, after: seq<Take>) {
    Took(before, after) && Willing(before[..|before| - |after|])
  }

  /** Writes in a row: all of them made progress exactly if both parts did. */
  lemma KeptOn(a: seq<Take>, b: seq<Take>, c: seq<Take>)
    requires Took(a, b) && Took(b, c)
    ensures Took(a, c) && (Kept(a, c) <==> Kept(a, b) && Kept(b, c))
  {
    var m, n := |a| - |b|, |a| - |c|;
    assert a[..n][..m] == a[..m] && a[..n] == a[..m] + b[..n - m];
  }

  lemma KeptAtFirst(a: seq<Take>)
    ensures Kept(a, a)
  {
  }

  datatype CopyError = NoError | ReadError | WriteError | ShortWrite

  /** Repeats short writes until everything is written. It reports an error exactly if one of the writes it made failed
      or took nothing. */
  method WriteBytes(destination: Sink, content: seq<Byte>) returns (error: CopyError)
    modifies destination
    ensures error != ReadError
    ensures error == NoError ==> destination.written == old(destination.written) + content
    ensures old(destination.written) <= destination.written <= old(destination.written) + content
    ensures Took(old(destination.script), destination.script)
    ensures error == NoError <==> Kept(old(destination.script), destination.script)
  {
    var rest := content;
    while |rest| > 0
      invariant destination.written + rest == old(destination.written) + content
      invariant old(destination.written) <= destination.written
      invariant Kept(old(destination.script), destination.script)
    {
      ghost var before := destination.script;
      var count, failed := destination.Write(rest);
      KeptOn(old(destination.script), before, destination.script);
      assert rest == rest[..count] + rest[count..];
      rest := rest[count..];
      if failed { return WriteError; }
      if count == 0 { return ShortWrite; }
    }
    assert destination.written + [] == destination.written;
    return NoError;
  }

  /** What is written, followed by the redaction of what is pending and still to come, makes up `all`. */
  ghost predicate Owes(written: seq<Byte>, s: seq<Byte>, future: seq<Byte>, secret: seq<Byte>, replacement: seq<Byte>,
                       all: seq<Byte>)
    requires secret != []
  {
    written + Redact(s + future, secret, replacement) == all
  }

  /** Writes the first `n` bytes of `s`, in which no match begins. */
  method WriteLiteral(destination: Sink, s: seq<Byte>, n: nat, ghost future: seq<Byte>, secret: seq<Byte>,
                      ghost replacement: seq<Byte>, ghost all: seq<Byte>)
    returns (error: CopyError)
    requires secret != [] && n <= |s| && (n + |secret| - 1 <= |s| || future == [])
    requires forall i: nat :: i < n ==> !OccursAt(s, secret, i)
    requires Owes(destination.written, s, future, secret, replacement, all)
    modifies destination
    ensures error != ReadError && destination.written <= all
    ensures error == NoError ==> destination.written == old(destination.written) + s[..n]
                                 && Owes(destination.written, s[n..], future, secret, replacement, all)
    ensures old(destination.written) <= destination.written
    ensures Took(old(destination.script), destination.script)
    ensures error == NoError <==> Kept(old(destination.script), destination.script)
  {
    PassOver(s, future, secret, replacement, n);
    assert all == destination.written + s[..n] + Redact(s[n..] + future, secret, replacement);
    error := WriteBytes(destination, s[..n]);
  }

  /** Writes the bytes before the first match, and the replacement. */
  method WriteMatch(destination: Sink, s: seq<Byte>, m: nat, ghost future: seq<Byte>, secret: seq<Byte>,
                    replacement: seq<Byte>, ghost all: seq<Byte>)
    returns (error: CopyError)
    requires secret != [] && m + |secret| <= |s| && OccursAt(s, secret, m)
    requires forall i: nat :: i < m ==> !OccursAt(s, secret, i)
    requires Owes(destination.written, s, future, secret, replacement, all)
    modifies destination
    ensures error != ReadError && destination.written <= all
    ensures error == NoError ==> Owes(destination.written, s[m + |secret|..], future, secret, replacement, all)
    ensures old(destination.written) <= destination.written
    ensures Took(old(destination.script), destination.script)
    ensures error == NoError <==> Kept(old(destination.script), destination.script)
  {
    PassMatch(s, future, secret, replacement, m);
    ghost var rest := Redact(s[m + |secret|..] + future, secret, replacement);
    assert all == destination.written + s[..m] + (replacement + rest);
    error := WriteBytes(destination, s[..m]);
    if error != NoError { return; }
    assert all == destination.written + replacement + rest;
    ghost var middle := destination.script;
    error := WriteBytes(destination, replacement);
    KeptOn(old(destination.script), middle, destination.script);
  }

  /** The loop of the flush: redacts and writes what begins before `flushBefore`, without touching the buffer. `future`
      is what the reader will still deliver: a match that begins before `flushBefore` must be visible in full already,
      or nothing may follow. */
  method WriteBefore(destination: Sink, pending: array<Byte>, length: nat, secret: seq<Byte>, replacement: seq<Byte>,
                     flushBefore: nat, ghost future: seq<Byte>, ghost all: seq<Byte>)
    returns (consumed: nat, error: CopyError)
    requires secret != [] && flushBefore <= length <= pending.Length
    requires flushBefore + |secret| - 1 <= length || future == []
    requires Owes(destination.written, pending[..length], future, secret, replacement, all)
    modifies destination
    ensures error != ReadError && destination.written <= all && consumed <= length
    ensures error == NoError ==> flushBefore <= consumed
                                 && Owes(destination.written, pending[consumed..length], future, secret,
                                         replacement, all)
    ensures old(destination.written) <= destination.written
    ensures Took(old(destination.script), destination.script)
    ensures error == NoError <==> Kept(old(destination.script), destination.script)
  {
    ghost var p := pending[..length];
    consumed := 0;
    var s := pending[..length];
    while consumed < flushBefore
      invariant consumed <= length && s == p[consumed..]
      invariant Owes(destination.written, s, future, secret, replacement, all)
      invariant Kept(old(destination.script), destination.script)
      invariant old(destination.written) <= destination.written
      decreases flushBefore - consumed
    {
      ghost var before := destination.script;
      var relativeMatch := IndexOf(s, secret);
      var literal := relativeMatch < 0 || consumed + relativeMatch >= flushBefore;
      var n := if literal then flushBefore - consumed else relativeMatch + |secret|;
      if literal {
        error := WriteLiteral(destination, s, n, future, secret, replacement, all);
      } else {
        error := WriteMatch(destination, s, relativeMatch, future, secret, replacement, all);
      }
      KeptOn(old(destination.script), before, destination.script);
      if error != NoError { return consumed, error; }
      DropTwice(p, consumed, n);
      s, consumed := s[n..], consumed + n;
    }
    assert p[consumed..] == pending[consumed..length];
    error := NoError;
  }

  lemma DropTwice(p: seq<Byte>, from: nat, more: nat)
    requires from + more <= |p|
    ensures p[from..][more..] == p[from + more..]
  {
  }

  /** Redacts and writes the pending bytes before `flushBefore`, and moves the rest to the front of the buffer. */
  method WriteRedactedPrefix(destination: Sink, pending: array<Byte>, length: nat, secret: seq<Byte>,
                             replacement: seq<Byte>, flushBefore: nat, ghost future: seq<Byte>, ghost all: seq<Byte>)
    returns (remaining: nat, error: CopyError)
    requires secret != [] && flushBefore <= length <= pending.Length
    requires flushBefore + |secret| - 1 <= length || future == []
    requires Owes(destination.written, pending[..length], future, secret, replacement, all)
    modifies destination, pending
    ensures error != ReadError && destination.written <= all && remaining <= length
    ensures error == NoError ==> remaining <= length - flushBefore
                                 && Owes(destination.written, pending[..remaining], future, secret, replacement, all)
    ensures old(destination.written) <= destination.written
    ensures Took(old(destination.script), destination.script)
    ensures error == NoError <==> Kept(old(destination.script), destination.script)
  {
    var consumed;
    consumed, error := WriteBefore(destination, pending, length, secret, replacement, flushBefore, future, all);
    if error != NoError { return length, error; }
    remaining := length - consumed;
    Compact(pending, consumed, length);
  }

  /** Moves `pending[from..length]` to the front, as appending to `pending[:0]` does. */
  method Compact(pending: array<Byte>, from: nat, length: nat)
    requires from <= length <= pending.Length
    modifies pending
    ensures pending[..length - from] == old(pending[from..length])
  {
    var i := 0;
    while i < length - from
      invariant 0 <= i <= length - from
      invariant forall k :: 0 <= k < i ==> pending[k] == old(pending[from + k])
      invariant forall k :: i <= k < length ==> pending[k] == old(pending[k])
    {
      pending[i] := pending[from + i];
      i := i + 1;
    }
  }

  /** No match begins in the first `n` bytes, whatever follows. */
  lemma PassOver(s: seq<Byte>, future: seq<Byte>, secret: seq<Byte>, replacement: seq<Byte>, n: nat)
    requires secret != [] && n <= |s| && (n + |secret| - 1 <= |s| || future == [])
    requires forall i: nat :: i < n ==> !OccursAt(s, secret, i)
    ensures Redact(s + future, secret, replacement) == s[..n] + Redact(s[n..] + future, secret, replacement)
  {
    forall i | 0 <= i < n ensures !OccursAt(s + future, secret, i) {
      if future == [] { assert s + future == s; } else { OccursEarly(s, future, secret, i); }
    }
    Skip(s + future, secret, replacement, n);
    assert (s + future)[..n] == s[..n] && (s + future)[n..] == s[n..] + future;
  }

  /** The first match is replaced, whatever follows. */
  lemma PassMatch(s: seq<Byte>, future: seq<Byte>, secret: seq<Byte>, replacement: seq<Byte>, m: nat)
    requires secret != [] && m + |secret| <= |s| && OccursAt(s, secret, m)
    requires forall i: nat :: i < m ==> !OccursAt(s, secret, i)
    ensures Redact(s + future, secret, replacement)
            == s[..m] + (replacement + Redact(s[m + |secret|..] + future, secret, replacement))
  {
    PassOver(s, future, secret, replacement, m);
    var t := s[m..] + future;
    OccursEarly(s, future, secret, m);
    assert t[0..] == t && t == (s + future)[m..];
    Replace(t, secret, replacement);
    assert t[|secret|..] == s[m + |secret|..] + future;
  }

  /** `append(pending, chunk...)` within the capacity of the buffer: it is never reallocated. */
  method Append(pending: array<Byte>, length: nat, chunk: seq<Byte>)
    requires length + |chunk| <= pending.Length
    modifies pending
    ensures pending[..length + |chunk|] == old(pending[..length]) + chunk
  {
    forall i | 0 <= i < |chunk| {
      pending[length + i] := chunk[i];
    }
  }

  /** One read, appended to what is pending. Once the stream has ended nothing more is to come. */
  method ReadChunk(source: Source, buffer: array<Byte>, pending: array<Byte>, length: nat)
    returns (length': nat, status: Status, ghost future: seq<Byte>)
    requires buffer != pending && source.Fits(buffer.Length) && length + buffer.Length <= pending.Length
    modifies source, buffer, pending
    ensures source.Fits(buffer.Length)
    ensures length <= length' <= pending.Length
    ensures pending[..length'] + future == old(pending[..length]) + Delivered(old(source.script))
    ensures future == if status == More then Delivered(source.script) else []
    ensures status == More ==>
              |source.script| < |old(source.script)| && Outcome(source.script) == Outcome(old(source.script))
    ensures status != More ==> Outcome(old(source.script)) == status
  {
    ghost var before := source.script;
    var count;
    count, status := source.Read(buffer);
    length' := length;
    future := if status == More then Delivered(source.script) else [];
    assert buffer[..count] + future == Delivered(before);
    if count > 0 {
      Append(pending, length, buffer[..count]);
      length' := length + count;
    }
    assert pending[..length'] + future == old(pending[..length]) + (buffer[..count] + future);
  }

  /** What a copy reports: the end of the stream, or its error, unless a write failed first. */
  predicate Reports(error: CopyError, outcome: Status, kept: bool) {
    && (error == NoError <==> kept && outcome == EndOfFile)
    && (error == ReadError <==> kept && outcome == Failure)
  }

  /** All but a tail shorter than the secret has been redacted and written. */
  ghost predicate AllButTail(written: seq<Byte>, secret: seq<Byte>, replacement: seq<Byte>, all: seq<Byte>)
    requires secret != []
  {
    exists tail: seq<Byte> :: |tail| < |secret| && written + Redact(tail, secret, replacement) == all
  }

  /** One round of the read loop: a read, and a flush of all that can no longer begin a match still to come. */
  method CopyRound(source: Source, destination: Sink, secret: seq<Byte>, replacement: seq<Byte>,
                   buffer: array<Byte>, pending: array<Byte>, length: nat, ghost all: seq<Byte>)
    returns (length': nat, status: Status, error: CopyError)
    requires secret != [] && buffer != pending && source.Fits(buffer.Length)
    requires pending.Length == buffer.Length + |secret| && length < |secret|
    requires Owes(destination.written, pending[..length], Delivered(source.script), secret, replacement, all)
    modifies source, destination, buffer, pending
    ensures source.Fits(buffer.Length)
    ensures error != ReadError && destination.written <= all
    ensures error == NoError ==> length' < |secret|
    ensures error == NoError ==>
              Owes(destination.written, pending[..length'], if status == More then Delivered(source.script) else [],
                   secret, replacement, all)
    ensures status == More ==> |source.script| < |old(source.script)|
    ensures Outcome(old(source.script)) == if status == More then Outcome(source.script) else status
    ensures old(destination.written) <= destination.written
    ensures Took(old(destination.script), destination.script)
    ensures error == NoError <==> Kept(old(destination.script), destination.script)
  {
    ghost var future;
    length', status, future := ReadChunk(source, buffer, pending, length);
    error := NoError;
    var flushBefore := length' - (|secret| - 1);
    if flushBefore > 0 {
      length', error :=
        WriteRedactedPrefix(destination, pending, length', secret, replacement, flushBefore, future, all);
    }
  }

  lemma TailIsLeft(written: seq<Byte>, tail: seq<Byte>, secret: seq<Byte>, replacement: seq<Byte>, all: seq<Byte>)
    requires secret != [] && |tail| < |secret| && Owes(written, tail, [], secret, replacement, all)
    ensures AllButTail(written, secret, replacement, all)
  {
    assert tail + [] == tail;
  }

  /** The flush of what is pending at the end of the stream. */
  method CopyRest(destination: Sink, secret: seq<Byte>, replacement: seq<Byte>, pending: array<Byte>, length: nat,
                  ghost all: seq<Byte>)
    returns (error: CopyError)
    requires secret != [] && length <= pending.Length
    requires Owes(destination.written, pending[..length], [], secret, replacement, all)
    modifies destination, pending
    ensures error != ReadError && destination.written <= all && (error == NoError ==> destination.written == all)
    ensures old(destination.written) <= destination.written
    ensures Took(old(destination.script), destination.script)
    ensures error == NoError <==> Kept(old(destination.script), destination.script)
  {
    var remaining;
    remaining, error := WriteRedactedPrefix(destination, pending, length, secret, replacement, length, [], all);
    assert error == NoError ==> pending[..remaining] + [] == [];
  }

  lemma PrefixOn(a: seq<Byte>, b: seq<Byte>, c: seq<Byte>)
    requires a <= b <= c
    ensures a <= c
  {
  }

  /** The read loop. At its top at most `|secret| - 1` bytes are retained. */
  method CopyLoop(source: Source, destination: Sink, secret: seq<Byte>, replacement: seq<Byte>,
                  buffer: array<Byte>, pending: array<Byte>)
    returns (error: CopyError)
    requires secret != [] && buffer != pending && source.Fits(buffer.Length)
    requires pending.Length == buffer.Length + |secret|
    modifies source, destination, buffer, pending
    ensures var all := old(destination.written) + Redact(Delivered(old(source.script)), secret, replacement);
            && old(destination.written) <= destination.written <= all
            && (error == NoError ==> destination.written == all)
            && (error == ReadError ==> AllButTail(destination.written, secret, replacement, all))
    ensures Took(old(destination.script), destination.script)
    ensures Reports(error, Outcome(old(source.script)), Kept(old(destination.script), destination.script))
  {
    ghost var all := destination.written + Redact(Delivered(source.script), secret, replacement);
    var length: nat := 0;
    assert pending[..0] + Delivered(source.script) == Delivered(source.script);
    while true
      invariant source.Fits(buffer.Length) && length < |secret|
      invariant Outcome(source.script) == Outcome(old(source.script))
      invariant old(destination.written) <= destination.written <= all
      invariant Owes(destination.written, pending[..length], Delivered(source.script), secret, replacement, all)
      invariant Kept(old(destination.script), destination.script)
      decreases |source.script|
    {
      var status;
      ghost var before, written := destination.script, destination.written;
      length, status, error :=
        CopyRound(source, destination, secret, replacement, buffer, pending, length, all);
      KeptOn(old(destination.script), before, destination.script);
      PrefixOn(old(destination.written), written, destination.written);
      if error != NoError { return; }
      if status == EndOfFile { break; }
      if status == Failure {
        TailIsLeft(destination.written, pending[..length], secret, replacement, all);
        return ReadError;
      }
    }
    ghost var before, written := destination.script, destination.written;
    error := CopyRest(destination, secret, replacement, pending, length, all);
    KeptOn(old(destination.script), before, destination.script);
    PrefixOn(old(destination.written), written, destination.written);
  }

  /** One write of a library copy: a short one ends it. */
  method WriteOnce(destination: Sink, content: seq<Byte>) returns (error: CopyError)
    modifies destination
    ensures error != ReadError
    ensures old(destination.written) <= destination.written <= old(destination.written) + content
    ensures error == NoError ==> destination.written == old(destination.written) + content
    ensures error == NoError <==> content == [] || TakesWhole(old(destination.script), content)
    ensures destination.script == if content == [] then old(destination.script) else Next(old(destination.script))
  {
    if content == [] {
      assert destination.written + [] == destination.written;
      return NoError;
    }
    var taken, failed := destination.Write(content);
    if failed { return WriteError; }
    return if taken != |content| then ShortWrite else NoError;
  }

  /** The sink takes each chunk of the stream whole. */
  predicate TakesChunks(takes: seq<Take>, script: seq<Read>) {
    script == [] ||
    var chunk := script[0].bytes;
    && (chunk == [] || TakesWhole(takes, chunk))
    && (script[0].status != More || TakesChunks(if chunk == [] then takes else Next(takes), script[1..]))
  }

  /** Copying without a key to redact: it succeeds exactly if the stream ends and the sink takes each chunk whole,
      because the library copy does not repeat a short write. */
  method PlainCopy(source: Source, destination: Sink, buffer: array<Byte>) returns (error: CopyError)
    requires source.Fits(buffer.Length)
    modifies source, destination, buffer
    ensures var all := old(destination.written) + Delivered(old(source.script));
            && old(destination.written) <= destination.written <= all
            && (error == NoError || error == ReadError ==> destination.written == all)
    ensures Reports(error, Outcome(old(source.script)), TakesChunks(old(destination.script), old(source.script)))
  {
    ghost var all := destination.written + Delivered(source.script);
    while true
      invariant source.Fits(buffer.Length)
      invariant Outcome(source.script) == Outcome(old(source.script))
      invariant destination.written + Delivered(source.script) == all
      invariant old(destination.written) <= destination.written
      invariant TakesChunks(destination.script, source.script)
                <==> TakesChunks(old(destination.script), old(source.script))
      decreases |source.script|
    {
      ghost var before := source.script;
      var count, status := source.Read(buffer);
      ghost var future := if status == More then Delivered(source.script) else [];
      assert buffer[..count] + future == Delivered(before);
      assert all == destination.written + buffer[..count] + future;
      error := WriteOnce(destination, buffer[..count]);
      if error != NoError { return; }
      if status != More {
        assert destination.written + [] == destination.written;
        return if status == EndOfFile then NoError else ReadError;
      }
    }
  }

  predicate Wiped(a: array<Byte>)
    reads a
  {
    forall i :: 0 <= i < a.Length ==> a[i] == 0
  }

  method Wipe(a: array<Byte>)
    modifies a
    ensures Wiped(a)
  {
    forall i | 0 <= i < a.Length {
      a[i] := 0;
    }
  }

  const REDACTION: seq<Byte> := Ascii("[REDACTED]")

  /** What the destination is owed for a stream. */
  function Expected(content: seq<Byte>, runnerKey: seq<Byte>): seq<Byte> {
    if runnerKey == [] then content else Redact(content, runnerKey, REDACTION)
  }

  /** No part of the output that has been written, on an error either, contains a key that shares no byte with the
      replacement. */
  lemma PrefixIsClean(content: seq<Byte>, runnerKey: seq<Byte>, written: seq<Byte>)
    requires runnerKey != [] && Disjoint(runnerKey, REDACTION) && written <= Expected(content, runnerKey)
    ensures NoOccurrence(written, runnerKey)
  {
    var all := Expected(content, runnerKey);
    forall i: nat | i <= |written| ensures !OccursAt(written, runnerKey, i) {
      if OccursAt(written, runnerKey, i) {
        assert all[i..][..|runnerKey|] == written[i..][..|runnerKey|];
        OutputIsClean(content, runnerKey, REDACTION, i);
      }
    }
  }

  /** Whether the writes of a copy did what it needs: with a key each must make progress, without one each must take
      its whole chunk. */
  predicate Served(before: seq<Take>, after: seq<Take>, script: seq<Read>, runnerKey: seq<Byte>) {
    if runnerKey == [] then TakesChunks(before, script) else Kept(before, after)
  }

  /** The part with a key: all its buffers are wiped, however it ends. */
  method CopyRedacted(source: Source, destination: Sink, runnerKey: seq<Byte>)
    returns (error: CopyError, scratch: seq<array<Byte>>)
    requires runnerKey != [] && source.Fits(COPY_BUFFER_BYTES)
    modifies source, destination
    ensures var all := old(destination.written) + Redact(Delivered(old(source.script)), runnerKey, REDACTION);
            && old(destination.written) <= destination.written <= all
            && (error == NoError ==> destination.written == all)
            && (error == ReadError ==> AllButTail(destination.written, runnerKey, REDACTION, all))
    ensures Took(old(destination.script), destination.script)
    ensures Reports(error, Outcome(old(source.script)), Kept(old(destination.script), destination.script))
    ensures |scratch| == 3 && forall i :: 0 <= i < |scratch| ==> Wiped(scratch[i])
  {
    var secret := new Byte[|runnerKey|](i requires 0 <= i < |runnerKey| => runnerKey[i]);
    var buffer := new Byte[COPY_BUFFER_BYTES];
    var pending := new Byte[COPY_BUFFER_BYTES + secret.Length];
    assert secret[..] == runnerKey;
    error := CopyLoop(source, destination, secret[..], REDACTION, buffer, pending);
    Wipe(secret);
    Wipe(buffer);
    Wipe(pending);
    scratch := [secret, buffer, pending];
  }

  /** `copyRuntimeCommandOutput`, whatever the chunks and however short the writes. `scratch` is every buffer that
      held content or the key. */
  method CopyCommandOutput(source: Source, destination: Sink, runnerKey: seq<Byte>)
    returns (error: CopyError, scratch: seq<array<Byte>>)
    requires source.Fits(COPY_BUFFER_BYTES)
    modifies source, destination
    // what is written is a part of what is owed, all of it on success, and all but a tail if the reader fails
    ensures var all := old(destination.written) + Expected(Delivered(old(source.script)), runnerKey);
            && old(destination.written) <= destination.written <= all
            && (error == NoError ==> destination.written == all)
            && (error == ReadError ==>
                  if runnerKey == [] then destination.written == all
                  else AllButTail(destination.written, runnerKey, REDACTION, all))
    // it succeeds, or passes on the error of the reader, exactly if no write that it made failed it
    ensures Reports(error, Outcome(old(source.script)),
                    Served(old(destination.script), destination.script, old(source.script), runnerKey))
    // in particular for every sink that takes some bytes each time
    ensures runnerKey != [] && Willing(old(destination.script)) ==>
              error == if Outcome(old(source.script)) == EndOfFile then NoError else ReadError
    // however it ends, a key that shares no byte with the replacement is not in what it wrote
    ensures runnerKey != [] && Disjoint(runnerKey, REDACTION) ==>
              |old(destination.written)| <= |destination.written|
              && NoOccurrence(destination.written[|old(destination.written)|..], runnerKey)
    ensures runnerKey != [] ==> |scratch| == 3 && forall i :: 0 <= i < |scratch| ==> Wiped(scratch[i])
  {
    if runnerKey == [] {
      var buffer := new Byte[COPY_BUFFER_BYTES];
      error := PlainCopy(source, destination, buffer);
      scratch := [buffer];
    } else {
      error, scratch := CopyRedacted(source, destination, runnerKey);
      OutcomeIsFinal(old(source.script));
      WrittenIsClean(old(destination.written), destination.written, Delivered(old(source.script)), runnerKey);
    }
  }

  lemma {:induction false} OutcomeIsFinal(script: seq<Read>)
    ensures Outcome(script) != More
  {
    if script != [] && script[0].status == More { OutcomeIsFinal(script[1..]); }
  }

  lemma WrittenIsClean(before: seq<Byte>, written: seq<Byte>, content: seq<Byte>, runnerKey: seq<Byte>)
    requires before <= written <= before + Expected(content, runnerKey)
    ensures runnerKey != [] && Disjoint(runnerKey, REDACTION) ==> NoOccurrence(written[|before|..], runnerKey)
  {
    var all := before + Expected(content, runnerKey);
    assert all[|before|..] == Expected(content, runnerKey);
    assert written[|before|..] == all[|before|..][..|written| - |before|];
    if runnerKey != [] && Disjoint(runnerKey, REDACTION) { PrefixIsClean(content, runnerKey, written[|before|..]); }
  }
}
