/** The sliding parse buffer: requesting room, handing over text, and deferring the next attempt at a partial token. */
module ParseBuffer {

  import opened Options
  import opened Probing

  const CONTEXT_BYTES := 1024
  const INIT_BUFFER_SIZE := 1024
  const INT_MAX := 0x7FFF_FFFF

  datatype Parsing = Initialized | Parsing | Finished | Suspended

  datatype Error = NoMemory | NoBuffer | WhenSuspended | WhenFinished | InvalidArgument | Content(code: int)

  datatype Status = StatusOk | StatusError | StatusSuspended

  // What the processor does with the text it is given: how much it consumes, and how it ends.
  datatype Outcome = Outcome(consumed: nat, error: Option<Error>, suspends: bool)

  function Min(a: int, b: int): int {
    if a <= b then a else b
  }

  function Max(a: int, b: int): int {
    if a <= b then b else a
  }

  // A cast from unsigned to signed.
  function Signed(w: nat): int {
    var v := w % 0x1_0000_0000;
    if v <= INT_MAX then v else v - 0x1_0000_0000
  }

  // The doubling of a size below 2^31 overflows exactly at 2^30.
  lemma {:induction false} Doubled(power: nat)
    requires power <= 30
    ensures 0 < Pow2(power) <= 0x4000_0000
    ensures Signed(2 * Pow2(power)) == if power == 30 then -0x8000_0000 else Pow2(power + 1)
  {
    Pow2Grows(power, 30);
    Thirty();
    if power < 30 {
      Pow2Grows(power, 29);
      Pow2Step(power + 1);
      Pow2Step(30);
    }
  }

  lemma {:induction false} Thirty()
    ensures Pow2(10) == 1024 && Pow2(30) == 0x4000_0000
  {
    assert Pow2(10) == 1024;
    assert Pow2(20) == 1024 * Pow2(10);
    assert Pow2(30) == 1024 * Pow2(20);
  }

  // A front is the end of the text received, of which ptr bytes are parsed: all that is not parsed is there, and
  // before it as much as there is of the context.
  ghost predicate IsFront(front: seq<char>, ptr: nat, received: seq<char>) {
    && ptr <= |front| <= |received|
    && front == received[|received| - |front|..]
    && ptr >= Min(CONTEXT_BYTES, |received| - (|front| - ptr))
  }

  // Cutting off older context keeps a front.
  lemma {:induction false} CutFront(front: seq<char>, ptr: nat, received: seq<char>, cut: nat)
    requires IsFront(front, ptr, received) && cut <= ptr && ptr - cut >= Min(CONTEXT_BYTES, ptr)
    ensures IsFront(front[cut..], ptr - cut, received) && front[cut..][ptr - cut..] == front[ptr..]
  {
    assert received[|received| - |front|..][cut..] == received[|received| - |front[cut..]|..];
  }

  // So does receiving more text at its end and parsing some of it.
  lemma {:induction false} ExtendFront(front: seq<char>, ptr: nat, received: seq<char>, more: seq<char>, ptr': nat)
    requires IsFront(front, ptr, received) && ptr <= ptr' <= |front + more|
    ensures IsFront(front + more, ptr', received + more)
  {
  }

  // The context before the unparsed text is what was received before it.
  lemma {:induction false} FrontIsReceived(front: seq<char>, ptr: nat, received: seq<char>)
    requires IsFront(front, ptr, received)
    ensures var consumed := |received| - (|front| - ptr);
            && ptr <= consumed && front[ptr..] == received[consumed..] && front[..ptr] == received[consumed - ptr..consumed]
  {
  }

  // The bytes from the given place move to the front.
  method MoveToFront(b: array<char>, from: nat, n: nat)
    requires from + n <= b.Length
    modifies b
    ensures b[..n] == old(b[from..from + n])
  {
    ghost var all := b[..];
    for i := 0 to n
      invariant forall k :: 0 <= k < i ==> b[k] == all[k + from]
      invariant forall k :: i <= k < b.Length ==> b[k] == all[k]
    {
      b[i] := b[i + from];
    }
  }

  method Copy(b: array<char>, at: nat, text: seq<char>)
    requires at + |text| <= b.Length
    modifies b
    ensures b[..at] == old(b[..at]) && b[at..at + |text|] == text
  {
    for i := 0 to |text|
      invariant b[..at] == old(b[..at]) && b[at..at + i] == text[..i]
    {
      b[at + i] := text[i];
    }
  }

  method NewBlock(size: nat, text: seq<char>) returns (b: array<char>)
    requires |text| <= size
    ensures fresh(b) && b.Length == size && b[0..|text|] == text
  {
    b := new char[size];
    Copy(b, 0, text);
  }

  /** A parser as far as its buffer goes. */
  class Parser {
    var buffer: array?<char>
    var bufferPtr: nat
    var bufferEnd: nat
    var bufferLim: nat
    var lastBufferRequestSize: nat
    var partialTokenBytesBefore: nat
    var reparseDeferralEnabled: bool
    var parsing: Parsing
    var finalBuffer: bool
    var errorCode: Option<Error>
    var failed: bool

    // All the text ever handed over, and the size of the buffer as a power of two.
    ghost var received: seq<char>
    ghost var power: nat

    constructor (reparseDeferralEnabled: bool)
      ensures Valid() && received == [] && buffer == null && parsing == Initialized && !failed
      ensures this.reparseDeferralEnabled == reparseDeferralEnabled
      ensures partialTokenBytesBefore == 0 && errorCode == None
    {
      this.reparseDeferralEnabled := reparseDeferralEnabled;
      buffer, bufferPtr, bufferEnd, bufferLim := null, 0, 0, 0;
      lastBufferRequestSize, partialTokenBytesBefore := 0, 0;
      parsing, finalBuffer, errorCode, failed := Initialized, false, None, false;
      received, power := [], 10;
    }

    ghost predicate Ordered()
      reads this`buffer, this`bufferPtr, this`bufferEnd, this`bufferLim, this`power
    {
      && bufferPtr <= bufferEnd <= bufferLim
      && (buffer == null ==> bufferLim == 0)
      && (buffer != null ==> buffer.Length == bufferLim == Pow2(power) && 10 < power <= 30)
    }

    ghost function Front(): (front: seq<char>)
      requires Ordered()
      reads this`buffer, this`bufferPtr, this`bufferEnd, this`bufferLim, this`power, buffer
      ensures |front| == bufferEnd
    {
      if buffer == null then [] else buffer[..bufferEnd]
    }

    ghost predicate Valid()
      reads this`buffer, this`bufferPtr, this`bufferEnd, this`bufferLim, this`power, this`received, buffer
    {
      Ordered() && IsFront(Front(), bufferPtr, received)
    }

    // The text not yet parsed.
    ghost function Unparsed(): seq<char>
      requires Ordered()
      reads this`buffer, this`bufferPtr, this`bufferEnd, this`bufferLim, this`power, buffer
    {
      Front()[bufferPtr..]
    }

    ghost function Consumed(): int
      reads this`bufferPtr, this`bufferEnd, this`received
    {
      |received| - (bufferEnd - bufferPtr)
    }

    // The room there is once the context is cut to what is kept.
    ghost function Room(): int
      reads this`bufferPtr, this`bufferEnd, this`bufferLim
    {
      bufferLim - (bufferEnd - bufferPtr) - Min(bufferPtr, CONTEXT_BYTES)
    }

    ghost function Needed(len: int): int
      reads this`bufferPtr, this`bufferEnd
    {
      len + (bufferEnd - bufferPtr) + Min(bufferPtr, CONTEXT_BYTES)
    }

    // Whether a request for len bytes is met, and why not.
    ghost predicate HasRoom(len: int, canAllocate: bool)
      reads this`buffer, this`bufferPtr, this`bufferEnd, this`bufferLim, this`parsing
    {
      && len >= 0 && parsing != Suspended && parsing != Finished
      && ((buffer != null && len <= Room()) || (canAllocate && Needed(len) <= 0x4000_0000))
    }

    ghost function NoRoom(len: int): Error
      reads this`parsing
    {
      if len < 0 then NoMemory
      else match parsing
        case Suspended => WhenSuspended
        case Finished => WhenFinished
        case _ => NoMemory
    }

    // The unparsed text and the kept context move to the front.
    method Slide(keep: nat)
      requires Ordered() && buffer != null && keep <= bufferPtr
      modifies this`bufferPtr, this`bufferEnd, buffer
      ensures Ordered() && bufferPtr == keep && bufferEnd == old(bufferEnd) - (old(bufferPtr) - keep)
      ensures Front() == old(Front())[old(bufferPtr) - keep..]
    {
      hide Pow2;
      var offset := bufferPtr - keep;
      var n := bufferEnd - bufferPtr + keep;
      MoveToFront(buffer, offset, n);
      bufferEnd := bufferEnd - offset;
      bufferPtr := bufferPtr - offset;
    }

    // A larger block with the same text in front.
    method MoveTo(bufferSize: nat, ghost power': nat, keep: nat)
      requires Ordered() && keep <= bufferPtr
      requires bufferSize == Pow2(power') && 10 < power' <= 30 && bufferEnd - bufferPtr + keep <= bufferSize
      modifies this`buffer, this`bufferPtr, this`bufferEnd, this`bufferLim, this`power
      ensures Ordered() && bufferPtr == keep && bufferLim == bufferSize
      ensures Front() == old(Front())[old(bufferPtr) - keep..]
      ensures buffer != null && fresh(buffer)
    {
      hide Pow2, Front;
      var n := bufferEnd - bufferPtr + keep;
      var kept := [];
      if buffer != null {
        kept := buffer[bufferPtr - keep..bufferEnd];
      }
      FrontPart(bufferPtr - keep, kept);
      var newBuf := NewBlock(bufferSize, kept);
      buffer := newBuf;
      bufferLim, bufferEnd, bufferPtr, power := bufferSize, n, keep, power';
      FrontPart(0, kept);
      assert Front()[0..] == Front();
    }

    lemma {:induction false} FrontPart(from: nat, part: seq<char>)
      requires Ordered() && from <= bufferEnd && part == if buffer == null then [] else buffer[from..bufferEnd]
      ensures Front()[from..] == part
    {
    }

    method GetBuffer(len: int, canAllocate: bool) returns (room: Option<nat>)
      requires Valid() && len <= INT_MAX
      modifies this`buffer, this`bufferPtr, this`bufferEnd, this`bufferLim, this`power, this`errorCode,
               this`lastBufferRequestSize, buffer
      ensures Valid() && Unparsed() == old(Unparsed()) && bufferEnd - bufferPtr == old(bufferEnd - bufferPtr)
      ensures buffer == old(buffer) || fresh(buffer)
      ensures room.Some? ==> buffer != null && room.value == bufferEnd && bufferLim - bufferEnd >= len
      // Exactly when a request succeeds ...
      ensures room.Some? <==> old(HasRoom(len, canAllocate))
      // ... and exactly when it takes a new block, the smallest that doubling gives.
      ensures room.Some? ==> (buffer == old(buffer) <==> old(buffer != null && len <= Room()))
      ensures room.Some? && buffer != old(buffer) ==>
                && bufferLim >= 2 * Max(old(bufferLim), INIT_BUFFER_SIZE)
                && (bufferLim == 2 * Max(old(bufferLim), INIT_BUFFER_SIZE) || bufferLim < 2 * old(Needed(len)))
      ensures room.Some? ==> lastBufferRequestSize == len && errorCode == old(errorCode)
      ensures room.Some? ==>
                bufferPtr == if old(buffer != null && len <= bufferLim - bufferEnd) then old(bufferPtr)
                             else Min(old(bufferPtr), CONTEXT_BYTES)
      // The application can look back at what was received before.
      ensures ContextKept()
      ensures room.None? ==>
                && errorCode == Some(old(NoRoom(len))) && buffer == old(buffer) && bufferPtr == old(bufferPtr)
                && bufferEnd == old(bufferEnd) && bufferLim == old(bufferLim)
    {
      hide Pow2, IsFront, ContextKept, Front;
      HoldsContext();
      if len < 0 {
        errorCode := Some(NoMemory);
        return None;
      }
      if parsing == Suspended {
        errorCode := Some(WhenSuspended);
        return None;
      }
      if parsing == Finished {
        errorCode := Some(WhenFinished);
        return None;
      }
      lastBufferRequestSize := len;
      if len > bufferLim - bufferEnd || buffer == null {
        var ok := MakeRoom(len, canAllocate);
        HoldsContext();
        if !ok {
          return None;
        }
      }
      return Some(bufferEnd);
    }

    // The unparsed text and the context before it are what was received, up to 1024 bytes of context if there are any.
    ghost predicate ContextKept()
      requires Ordered()
      reads this`buffer, this`bufferPtr, this`bufferEnd, this`bufferLim, this`power, this`received, buffer
    {
      && Min(CONTEXT_BYTES, Consumed()) <= bufferPtr <= Consumed() <= |received|
      && Unparsed() == received[Consumed()..]
      && Front()[..bufferPtr] == received[Consumed() - bufferPtr..Consumed()]
    }

    lemma {:induction false} HoldsContext()
      requires Valid()
      ensures ContextKept()
    {
      FrontIsReceived(Front(), bufferPtr, received);
    }

    // The size needed, or a negative number when it does not fit an int.
    method CountNeeded(len: nat) returns (neededSize: int, keep: nat)
      requires Ordered() && len <= INT_MAX && bufferLim <= 0x4000_0000
      ensures neededSize >= 0 <==> Needed(len) <= INT_MAX
      ensures neededSize >= 0 ==> neededSize == Needed(len)
      ensures keep == Min(bufferPtr, CONTEXT_BYTES)
    {
      hide Pow2;
      keep := bufferPtr;
      if keep > CONTEXT_BYTES {
        keep := CONTEXT_BYTES;
      }
      neededSize := Signed(len + (bufferEnd - bufferPtr));
      if neededSize < 0 {
        return;
      }
      if keep > INT_MAX - neededSize {
        neededSize := -1;
        return;
      }
      neededSize := neededSize + keep;
    }

    method MakeRoom(len: nat, canAllocate: bool) returns (ok: bool)
      requires Valid() && len <= INT_MAX && (len > bufferLim - bufferEnd || buffer == null)
      modifies this`buffer, this`bufferPtr, this`bufferEnd, this`bufferLim, this`power, this`errorCode, buffer
      ensures Valid() && Unparsed() == old(Unparsed()) && bufferEnd - bufferPtr == old(bufferEnd - bufferPtr)
      ensures ok <==> old(buffer != null && len <= Room()) || (canAllocate && old(Needed(len)) <= 0x4000_0000)
      ensures ok ==>
                && buffer != null && bufferPtr == Min(old(bufferPtr), CONTEXT_BYTES) && len <= bufferLim - bufferEnd
                && if old(buffer != null && len <= Room()) then buffer == old(buffer)
                   else
                     && fresh(buffer) && bufferLim >= 2 * Max(old(bufferLim), INIT_BUFFER_SIZE)
                     && (bufferLim == 2 * Max(old(bufferLim), INIT_BUFFER_SIZE) || bufferLim < 2 * old(Needed(len)))
      ensures ok ==> errorCode == old(errorCode)
      ensures !ok ==>
                && errorCode == Some(NoMemory) && buffer == old(buffer) && bufferPtr == old(bufferPtr)
                && bufferEnd == old(bufferEnd) && bufferLim == old(bufferLim)
    {
      hide Pow2, IsFront, Signed;
      SizeBound();
      CutFront(Front(), bufferPtr, received, bufferPtr - Min(bufferPtr, CONTEXT_BYTES));
      var neededSize, keep := CountNeeded(len);
      if neededSize < 0 {
        errorCode := Some(NoMemory);
        return false;
      }
      if buffer != null && neededSize <= bufferLim {
        if keep < bufferPtr {
          Slide(keep);
        }
      } else {
        var bufferSize, power' := Double(neededSize);
        if bufferSize <= 0 || !canAllocate {
          errorCode := Some(NoMemory);
          return false;
        }
        MoveTo(bufferSize, power', keep);
      }
      return true;
    }

    lemma {:induction false} SizeBound()
      requires Ordered()
      ensures bufferLim <= 0x4000_0000
    {
      if buffer != null {
        Thirty();
        Pow2Grows(power, 30);
      }
    }

    // Doubles the size, at least once, until it suffices or overflows.
    method Double(neededSize: int) returns (bufferSize: int, ghost power': nat)
      requires Ordered() && neededSize >= 0
      requires buffer != null ==> neededSize > bufferLim
      ensures bufferSize > 0 <==> neededSize <= 0x4000_0000
      ensures bufferSize > 0 ==>
                && bufferSize == Pow2(power') && 10 < power' <= 30 && neededSize <= bufferSize
                && bufferSize >= 2 * Max(bufferLim, INIT_BUFFER_SIZE)
                && (bufferSize == 2 * Max(bufferLim, INIT_BUFFER_SIZE) || bufferSize < 2 * neededSize)
    {
      hide Pow2, Signed;
      Thirty();
      bufferSize, power' := bufferLim, if buffer == null then 10 else power;
      if bufferSize == 0 {
        bufferSize := INIT_BUFFER_SIZE;
      }
      Pow2Grows(10, power');
      ghost var first := bufferSize;
      Doubled(power');
      bufferSize := Signed(2 * bufferSize);
      if bufferSize > 0 {
        Pow2Step(power' + 1);
        power' := power' + 1;
      }
      while bufferSize < neededSize && bufferSize > 0
        invariant bufferSize > 0 ==> bufferSize == Pow2(power') && 10 < power' <= 30
        invariant bufferSize > 0 ==> bufferSize == 2 * first || bufferSize < 2 * neededSize
        invariant bufferSize > 0 ==> bufferSize >= 2 * first
        invariant bufferSize <= 0 ==> neededSize > 0x4000_0000 && bufferSize <= 0
        decreases bufferSize > 0, 30 - power'
      {
        Doubled(power');
        bufferSize := Signed(2 * bufferSize);
        if bufferSize > 0 {
          Pow2Step(power' + 1);
          power' := power' + 1;
        }
      }
      if bufferSize > 0 {
        Pow2Grows(power', 30);
      }
    }

    // The application fills some of the room it asked for.
    method Fill(text: seq<char>)
      requires Valid() && |text| <= bufferLim - bufferEnd
      modifies buffer
      ensures Valid() && Front() == old(Front())
      ensures buffer != null ==> buffer[bufferEnd..bufferEnd + |text|] == text
    {
      hide Pow2, IsFront;
      if buffer != null {
        Copy(buffer, bufferEnd, text);
      }
    }

    // Whether another attempt is worth its while: twice the text, or a request that would not fit any more.
    ghost predicate Enough()
      reads this`bufferPtr, this`bufferEnd, this`bufferLim, this`finalBuffer,
            this`partialTokenBytesBefore, this`lastBufferRequestSize, this`reparseDeferralEnabled
    {
      || !reparseDeferralEnabled || finalBuffer
      || bufferEnd - bufferPtr >= 2 * partialTokenBytesBefore
      || lastBufferRequestSize > Room()
    }

    // A deferred attempt consumes nothing, and leaves room for another request as large as the last.
    method CallProcessor(outcome: Outcome) returns (error: Option<Error>, endPtr: nat)
      requires Ordered()
      modifies this`partialTokenBytesBefore, this`parsing
      ensures bufferPtr <= endPtr <= bufferEnd
      ensures !old(Enough()) ==>
                && error == None && endPtr == bufferPtr && parsing == old(parsing)
                && partialTokenBytesBefore == old(partialTokenBytesBefore) && lastBufferRequestSize <= Room()
      ensures old(Enough()) && failed ==> error == errorCode && endPtr == bufferPtr && parsing == old(parsing)
      ensures old(Enough()) && !failed ==>
                && error == outcome.error && endPtr == bufferPtr + Min(outcome.consumed, bufferEnd - bufferPtr)
                && parsing == if outcome.suspends then Suspended else old(parsing)
      ensures old(Enough()) ==>
                partialTokenBytesBefore == if error.Some? then old(partialTokenBytesBefore)
                                           else if endPtr == bufferPtr then bufferEnd - bufferPtr else 0
    {
      hide Pow2;
      var haveNow := bufferEnd - bufferPtr;
      if reparseDeferralEnabled && !finalBuffer {
        var availableBuffer := bufferPtr;
        availableBuffer := availableBuffer - Min(availableBuffer, CONTEXT_BYTES);
        availableBuffer := availableBuffer + (bufferLim - bufferEnd);
        var enough := haveNow >= 2 * partialTokenBytesBefore || lastBufferRequestSize > availableBuffer;
        if !enough {
          return None, bufferPtr;
        }
      }
      endPtr := bufferPtr;
      if failed {
        error := errorCode;
      } else {
        endPtr := bufferPtr + Min(outcome.consumed, haveNow);
        error := outcome.error;
        if outcome.suspends {
          parsing := Suspended;
        }
      }
      if error == None {
        partialTokenBytesBefore := if endPtr == bufferPtr then haveNow else 0;
      }
    }

    // Whether text is taken at all.
    ghost predicate Accepts(len: int, started: bool)
      reads this`buffer, this`parsing
    {
      len >= 0 && (parsing == Parsing || (parsing == Initialized && buffer != null && started))
    }

    // Why not.
    ghost function Refusal(len: int): Error
      reads this`buffer, this`parsing
    {
      if len < 0 then InvalidArgument
      else match parsing
        case Suspended => WhenSuspended
        case Finished => WhenFinished
        case _ => if buffer == null then NoBuffer else NoMemory
    }

    // The reasons, state by state.
    lemma {:induction false} Reasons(len: int)
      ensures len < 0 ==> Refusal(len) == InvalidArgument && NoRoom(len) == NoMemory
      ensures len >= 0 && parsing == Suspended ==> Refusal(len) == NoRoom(len) == WhenSuspended
      ensures len >= 0 && parsing == Finished ==> Refusal(len) == NoRoom(len) == WhenFinished
      ensures len >= 0 && parsing == Initialized && buffer == null ==> Refusal(len) == NoBuffer
      ensures len >= 0 && parsing == Initialized && buffer != null ==> Refusal(len) == NoMemory
      ensures len >= 0 && (parsing == Initialized || parsing == Parsing) ==> NoRoom(len) == NoMemory
    {
    }

    // Whether the processor is asked after len more bytes.
    ghost predicate Tries(len: nat, isFinal: bool)
      reads this`bufferPtr, this`bufferEnd, this`bufferLim, this`partialTokenBytesBefore, this`lastBufferRequestSize,
            this`reparseDeferralEnabled
    {
      || !reparseDeferralEnabled || isFinal
      || bufferEnd + len - bufferPtr >= 2 * partialTokenBytesBefore
      || lastBufferRequestSize > Room() - len
    }

    // XML_SetReparseDeferralEnabled
    method SetReparseDeferralEnabled(enabled: bool)
      modifies this`reparseDeferralEnabled
      ensures reparseDeferralEnabled == enabled
      ensures forall len: nat, isFinal :: !enabled ==> Tries(len, isFinal)
    {
      reparseDeferralEnabled := enabled;
    }

    // What has been written behind the unparsed text becomes text received.
    method ParseBuffer(len: int, isFinal: bool, started: bool, outcome: Outcome) returns (status: Status)
      requires Valid()
      requires len > bufferLim - bufferEnd ==> parsing == Suspended || parsing == Finished
                                               || (parsing == Initialized && buffer == null)
      modifies this`bufferPtr, this`bufferEnd, this`partialTokenBytesBefore, this`parsing, this`finalBuffer,
               this`errorCode, this`failed, this`received
      ensures Valid()
      ensures old(Accepts(len, started)) ==>
                && bufferEnd == old(bufferEnd) + len && bufferPtr >= old(bufferPtr)
                && received == old(received) + Written(old(bufferEnd))
                && parsing == After(old(Tries(len, isFinal)) && !old(failed) && outcome.suspends, isFinal, status)
                && Progress(old(bufferPtr), old(partialTokenBytesBefore), old(Tries(len, isFinal)), old(failed),
                            old(errorCode), outcome, status)
      // A failed parser repeats its error exactly when it is asked and no attempt put off has cleared the error.
      ensures old(Accepts(len, started)) && old(failed) ==>
                (status == StatusError <==> old(Tries(len, isFinal)) && old(errorCode).Some?)
                && (status != StatusError ==> status == StatusOk && errorCode == None && failed)
      ensures !old(Accepts(len, started)) ==>
                && status == StatusError && errorCode == Some(old(Refusal(len)))
                && received == old(received) && parsing == old(parsing)
                && bufferPtr == old(bufferPtr) && bufferEnd == old(bufferEnd) && failed == old(failed)
    {
      hide Pow2, IsFront, Progress, Tries, Front, Written;
      if len < 0 {
        errorCode := Some(InvalidArgument);
        return StatusError;
      }
      match parsing {
        case Suspended =>
          errorCode := Some(WhenSuspended);
          return StatusError;
        case Finished =>
          errorCode := Some(WhenFinished);
          return StatusError;
        case Initialized =>
          if buffer == null {
            errorCode := Some(NoBuffer);
            return StatusError;
          }
          if !started {
            errorCode := Some(NoMemory);
            return StatusError;
          }
          status := Process(len, isFinal, outcome);
        case Parsing =>
          status := Process(len, isFinal, outcome);
      }
      if old(Accepts(len, started)) && old(failed) {
        FailedProgress(old(bufferPtr), old(partialTokenBytesBefore), old(Tries(len, isFinal)), old(errorCode), outcome,
                       status);
      }
    }

    // Text written into the room that was asked for, and handed over.
    method Hand(text: seq<char>, isFinal: bool, started: bool, outcome: Outcome) returns (status: Status)
      requires Valid() && |text| <= bufferLim - bufferEnd
      modifies this`bufferPtr, this`bufferEnd, this`partialTokenBytesBefore, this`parsing, this`finalBuffer,
               this`errorCode, this`failed, this`received, buffer
      ensures Valid()
      ensures old(Accepts(|text|, started)) ==>
                && bufferEnd == old(bufferEnd) + |text| && bufferPtr >= old(bufferPtr)
                && received == old(received) + text
                && bufferLim == old(bufferLim)
                && parsing == After(old(Tries(|text|, isFinal)) && !old(failed) && outcome.suspends, isFinal, status)
                && Progress(old(bufferPtr), old(partialTokenBytesBefore), old(Tries(|text|, isFinal)), old(failed),
                            old(errorCode), outcome, status)
      ensures !old(Accepts(|text|, started)) ==>
                && status == StatusError && errorCode == Some(old(Refusal(|text|))) && received == old(received)
                && parsing == old(parsing) && bufferPtr == old(bufferPtr) && bufferEnd == old(bufferEnd)
    {
      hide Pow2, IsFront, Progress, Tries, Front, Written;
      Fill(text);
      ghost var filled := bufferEnd;
      status := ParseBuffer(|text|, isFinal, started, outcome);
      if bufferEnd == filled + |text| {
        WrittenText(filled, text);
      }
    }

    // The state of parsing after an attempt.
    static ghost function After(suspended: bool, isFinal: bool, status: Status): Parsing {
      if suspended then Suspended else if status == StatusOk && isFinal then Finished else Parsing
    }

    // What lies between an earlier end of the text and the present one.
    ghost function Written(from: nat): seq<char>
      reads this`buffer, this`bufferEnd, buffer
    {
      if buffer != null && from <= bufferEnd <= buffer.Length then buffer[from..bufferEnd] else []
    }

    // How far parsing gets with the text taken.  A failed parser returns the error it holds, if it is asked at all; an
    // attempt put off leaves it none to return.
    ghost predicate Progress(before: nat, partial: nat, tried: bool, hadFailed: bool, oldError: Option<Error>,
                             outcome: Outcome, status: Status)
      reads this`bufferPtr, this`bufferEnd, this`bufferLim, this`partialTokenBytesBefore, this`errorCode, this`failed,
            this`lastBufferRequestSize
    {
      if !tried then
        && bufferPtr == before && partialTokenBytesBefore == partial
        && errorCode == None && status == StatusOk && failed == hadFailed
        && lastBufferRequestSize <= Room()
      else if hadFailed then
        && bufferPtr == before <= bufferEnd
        && partialTokenBytesBefore == (if oldError == None then bufferEnd - bufferPtr else partial)
        && errorCode == oldError && failed && status == if oldError.Some? then StatusError else StatusOk
      else
        && bufferPtr == before + Min(outcome.consumed, bufferEnd - before) <= bufferEnd
        && partialTokenBytesBefore == (if outcome.error.Some? then partial
                                       else if bufferPtr == before then bufferEnd - bufferPtr else 0)
        && errorCode == outcome.error && (failed <==> outcome.error.Some?)
        && status == if outcome.error.Some? then StatusError
                     else if outcome.suspends then StatusSuspended else StatusOk
    }

    lemma {:induction false} FailedProgress(before: nat, partial: nat, tried: bool, oldError: Option<Error>,
                                            outcome: Outcome, status: Status)
      requires Progress(before, partial, tried, true, oldError, outcome, status)
      ensures status == StatusError <==> tried && oldError.Some?
      ensures status != StatusError ==> status == StatusOk && errorCode == None && failed
    {
    }

    method Take(len: nat)
      requires Valid() && len <= bufferLim - bufferEnd
      modifies this`bufferEnd, this`received
      ensures Valid() && bufferEnd == old(bufferEnd) + len
      ensures received == old(received) + Written(old(bufferEnd))
    {
      hide Pow2, IsFront;
      ghost var front := Front();
      bufferEnd := bufferEnd + len;
      assert Front() == front + Written(|front|);
      ExtendFront(front, bufferPtr, received, Written(|front|), bufferPtr);
      received := received + Written(|front|);
    }

    method Advance(endPtr: nat)
      requires Valid() && bufferPtr <= endPtr <= bufferEnd
      modifies this`bufferPtr
      ensures Valid() && bufferPtr == endPtr
    {
      hide Pow2, IsFront;
      ghost var front := Front();
      ExtendFront(front, bufferPtr, received, [], endPtr);
      assert front + [] == front && received + [] == received;
      bufferPtr := endPtr;
    }

    lemma {:induction false} TakesFit()
      requires Valid()
      ensures bufferPtr <= bufferEnd <= bufferLim
    {
    }

    method Attempt(outcome: Outcome)
      requires Valid()
      modifies this`bufferPtr, this`partialTokenBytesBefore, this`parsing, this`errorCode
      ensures Valid() && old(bufferPtr) <= bufferPtr <= bufferEnd
      ensures !old(Enough()) ==>
                errorCode == None && bufferPtr == old(bufferPtr) && parsing == old(parsing)
                && partialTokenBytesBefore == old(partialTokenBytesBefore) && lastBufferRequestSize <= Room()
      ensures old(Enough()) ==>
                partialTokenBytesBefore == if errorCode.Some? then old(partialTokenBytesBefore)
                                           else if bufferPtr == old(bufferPtr) then bufferEnd - bufferPtr else 0
      ensures old(Enough()) && failed ==>
                errorCode == old(errorCode) && bufferPtr == old(bufferPtr) && parsing == old(parsing)
      ensures old(Enough()) && !failed ==>
                && errorCode == outcome.error
                && bufferPtr == old(bufferPtr + Min(outcome.consumed, bufferEnd - bufferPtr))
                && parsing == if outcome.suspends then Suspended else old(parsing)
    {
      hide Pow2, IsFront, Front;
      var error, endPtr := CallProcessor(outcome);
      errorCode := error;
      Advance(endPtr);
    }

    // What the attempt comes to: an error makes the parser a failed one.
    method Conclude(isFinal: bool) returns (status: Status)
      modifies this`parsing, this`failed
      ensures failed == (old(failed) || errorCode.Some?)
      ensures status == if errorCode.Some? then StatusError
                        else if old(parsing) == Suspended then StatusSuspended else StatusOk
      ensures parsing == if status == StatusOk && isFinal then Finished else old(parsing)
    {
      if errorCode != None {
        failed := true;
        return StatusError;
      }
      if parsing == Suspended {
        return StatusSuspended;
      }
      if isFinal {
        parsing := Finished;
      }
      return StatusOk;
    }

    // The text is received and the attempt is to come.
    method TakeAll(len: nat, isFinal: bool)
      requires Valid() && len <= bufferLim - bufferEnd
      modifies this`bufferEnd, this`parsing, this`finalBuffer, this`received
      ensures Valid() && bufferPtr <= bufferEnd == old(bufferEnd) + len && parsing == Parsing && finalBuffer == isFinal
      ensures received == old(received) + Written(old(bufferEnd))
      ensures Enough() == old(Tries(len, isFinal))
    {
      hide Pow2, Valid, Written, Ordered, Min;
      parsing := Parsing;
      TakesFit();
      Take(len);
      finalBuffer := isFinal;
    }

    method Process(len: nat, isFinal: bool, outcome: Outcome) returns (status: Status)
      requires Valid() && len <= bufferLim - bufferEnd
      modifies this`bufferPtr, this`bufferEnd, this`partialTokenBytesBefore, this`parsing, this`finalBuffer,
               this`errorCode, this`failed, this`received
      ensures Valid() && bufferEnd == old(bufferEnd) + len && bufferPtr >= old(bufferPtr)
      ensures received == old(received) + Written(old(bufferEnd))
      ensures Progress(old(bufferPtr), old(partialTokenBytesBefore), old(Tries(len, isFinal)), old(failed),
                       old(errorCode), outcome, status)
      ensures parsing == After(old(Tries(len, isFinal)) && !old(failed) && outcome.suspends, isFinal, status)
    {
      hide Pow2, Valid, Written, Ordered, Min, Enough, Tries, Room;
      TakeAll(len, isFinal);
      Attempt(outcome);
      status := Conclude(isFinal);
    }

    // Whether the processor is asked when text is handed over in one call: the buffer may be a new one by then.
    twostate predicate TriedWith(len: nat, isFinal: bool)
      reads this`bufferLim
    {
      || !old(reparseDeferralEnabled) || isFinal
      || old(bufferEnd - bufferPtr) + len >= 2 * old(partialTokenBytesBefore)
      || len > bufferLim - (old(bufferEnd - bufferPtr) + len) - Min(old(bufferPtr), CONTEXT_BYTES)
    }

    // All that handing text over in one call does once there is room: what is received, how far parsing gets, with
    // which status and error, and in which state it leaves the parser.
    twostate predicate Delivered(text: seq<char>, isFinal: bool, outcome: Outcome, status: Status)
      reads this
    {
      && received == old(received) + text
      && parsing == After(TriedWith(|text|, isFinal) && !old(failed) && outcome.suspends, isFinal, status)
      && Progress(if old(buffer != null && |text| <= bufferLim - bufferEnd) then old(bufferPtr)
                  else Min(old(bufferPtr), CONTEXT_BYTES),
                  old(partialTokenBytesBefore), TriedWith(|text|, isFinal), old(failed), old(errorCode), outcome, status)
    }

    // Handing text over in one call: room, a copy, and the call above.
    method Parse(text: seq<char>, isFinal: bool, started: bool, canAllocate: bool, outcome: Outcome)
      returns (status: Status)
      requires Valid() && |text| <= INT_MAX
      modifies this, buffer
      ensures Valid()
      ensures buffer == old(buffer) || fresh(buffer)
      ensures old(MayParse(started) && HasRoom(|text|, canAllocate)) ==> Delivered(text, isFinal, outcome, status)
      // Exactly otherwise nothing is received.
      ensures !old(MayParse(started) && HasRoom(|text|, canAllocate)) ==>
                && status == StatusError && errorCode == Some(old(NoRoom(|text|)))
                && received == old(received) && failed == old(failed) && Consumed() == old(Consumed())
                && parsing == if old(MayParse(started)) then Parsing else old(parsing)
      ensures received == old(received) || received == old(received) + text
      ensures status != StatusError ==> received == old(received) + text
      ensures Consumed() >= old(Consumed())
      ensures reparseDeferralEnabled == old(reparseDeferralEnabled)
    {
      hide Pow2, IsFront, Progress, Front;
      if parsing == Suspended {
        errorCode := Some(WhenSuspended);
        return StatusError;
      }
      if parsing == Finished {
        errorCode := Some(WhenFinished);
        return StatusError;
      }
      if parsing == Initialized && !started {
        errorCode := Some(NoMemory);
        return StatusError;
      }
      parsing := Parsing;
      status := Deliver(text, isFinal, canAllocate, outcome);
    }

    ghost predicate MayParse(started: bool)
      reads this`parsing
    {
      parsing == Parsing || (parsing == Initialized && started)
    }

    method Deliver(text: seq<char>, isFinal: bool, canAllocate: bool, outcome: Outcome) returns (status: Status)
      requires Valid() && |text| <= INT_MAX && parsing == Parsing
      modifies this, buffer
      ensures Valid()
      ensures buffer == old(buffer) || fresh(buffer)
      ensures old(HasRoom(|text|, canAllocate)) ==> Delivered(text, isFinal, outcome, status)
      ensures !old(HasRoom(|text|, canAllocate)) ==>
                && status == StatusError && errorCode == Some(NoMemory) && received == old(received)
                && failed == old(failed) && parsing == Parsing && Consumed() == old(Consumed())
      ensures Consumed() >= old(Consumed())
      ensures reparseDeferralEnabled == old(reparseDeferralEnabled)
    {
      hide Pow2, IsFront, Progress, Needed, Front, ContextKept;
      var room := GetBuffer(|text|, canAllocate);
      if room == None {
        return StatusError;
      }
      status := Hand(text, isFinal, true, outcome);
    }

    lemma {:induction false} WrittenText(from: nat, text: seq<char>)
      requires Ordered() && from + |text| == bufferEnd
      requires buffer != null ==> buffer[from..from + |text|] == text
      ensures Written(from) == text
    {
    }
  }

  // The calls of an application: it asks for room, fills some of it and hands that over, or does both in one; and it
  // may turn deferral on and off in between.
  datatype Call =
    | Defer(enabled: bool)
    | Request(len: int, canAllocate: bool)
    | Hand(text: seq<char>, isFinal: bool, started: bool, outcome: Outcome)
    | Feed(text: seq<char>, isFinal: bool, started: bool, memory: bool, outcome: Outcome)
  {
    predicate Legal() {
      match this
      case Defer(_) => true
      case Request(len, _) => len <= INT_MAX
      case Hand(text, _, _, _) => |text| <= INT_MAX
      case Feed(text, _, _, _, _) => |text| <= INT_MAX
    }

    // The text that a call brings.
    function Text(): seq<char> {
      if Hand? || Feed? then text else []
    }
  }

  // What is handed over is at most what there is room for.
  method Handle(p: Parser, call: Call) returns (status: Status)
    requires p.Valid() && call.Legal()
    modifies p, p.buffer
    ensures p.Valid() && (p.buffer == old(p.buffer) || fresh(p.buffer))
    ensures p.received == old(p.received) || p.received == old(p.received) + call.Text()
    ensures p.Consumed() >= old(p.Consumed())
    ensures p.reparseDeferralEnabled == if call.Defer? then call.enabled else old(p.reparseDeferralEnabled)
    ensures call.Request? ==> (status == StatusOk <==> old(p.HasRoom(call.len, call.canAllocate)))
    ensures call.Hand? && |call.text| <= old(p.bufferLim - p.bufferEnd) && old(p.Accepts(|call.text|, call.started)) ==>
              && p.parsing == Parser.After(old(p.Tries(|call.text|, call.isFinal)) && !old(p.failed)
                                           && call.outcome.suspends, call.isFinal, status)
              && p.Progress(old(p.bufferPtr), old(p.partialTokenBytesBefore), old(p.Tries(|call.text|, call.isFinal)),
                            old(p.failed), old(p.errorCode), call.outcome, status)
    ensures call.Feed? && old(p.MayParse(call.started) && p.HasRoom(|call.text|, call.memory)) ==>
              p.Delivered(call.text, call.isFinal, call.outcome, status)
  {
    hide Pow2, IsFront, Parser.Progress, Parser.Tries, Parser.Front, Parser.ContextKept, Parser.Delivered;
    status := StatusOk;
    match call
    case Defer(enabled) =>
      p.SetReparseDeferralEnabled(enabled);
    case Request(len, canAllocate) =>
      var room := p.GetBuffer(len, canAllocate);
      status := if room.Some? then StatusOk else StatusError;
    case Hand(text, isFinal, started, outcome) =>
      if |text| <= p.bufferLim - p.bufferEnd {
        status := p.Hand(text, isFinal, started, outcome);
      }
    case Feed(text, isFinal, started, memory, outcome) =>
      status := p.Parse(text, isFinal, started, memory, outcome);
  }

  // Over any run of calls the buffer holds the end of the text taken, with its context, and parsing never goes back.
  method Run(p: Parser, calls: seq<Call>) returns (ghost taken: seq<seq<char>>)
    requires p.Valid() && forall c :: c in calls ==> c.Legal()
    modifies p, p.buffer
    ensures p.Valid() && p.ContextKept()
    ensures |taken| == |calls| && p.received == old(p.received) + Joined(taken)
    ensures forall i :: 0 <= i < |calls| ==> taken[i] == [] || taken[i] == calls[i].Text()
    ensures p.Consumed() >= old(p.Consumed())
  {
    hide Pow2, IsFront, Parser.Ordered, Joined, Call.Legal, Parser.ContextKept;
    taken := [];
    JoinedNone();
    for i := 0 to |calls|
      invariant p.Valid() && |taken| == i && p.received == old(p.received) + Joined(taken)
      invariant forall k :: 0 <= k < i ==> taken[k] == [] || taken[k] == calls[k].Text()
      invariant p.Consumed() >= old(p.Consumed())
      invariant p.buffer == old(p.buffer) || fresh(p.buffer)
    {
      ghost var before := p.received;
      assert calls[i] in calls;
      var status := Handle(p, calls[i]);
      ghost var piece := if p.received == before then [] else calls[i].Text();
      JoinedMore(taken, piece);
      assert p.received == before + piece == old(p.received) + (Joined(taken) + piece);
      taken := taken + [piece];
    }
    p.HoldsContext();
  }

  // A text of n bytes, in the room asked for it.
  method Give(p: Parser, n: nat, outcome: Outcome) returns (status: Status)
    requires p.Valid() && 0 < n <= 500 && p.bufferEnd + n <= 1000
    requires p.parsing == Parsing || p.parsing == Initialized
    requires p.buffer != null ==> p.bufferLim == 2048
    requires p.buffer == null ==> p.received == []
    modifies p, p.buffer
    ensures p.Valid() && (p.buffer == old(p.buffer) || fresh(p.buffer)) && p.buffer != null && p.bufferLim == 2048
    ensures p.bufferEnd == old(p.bufferEnd) + n && |p.received| == old(|p.received|) + n
    ensures p.reparseDeferralEnabled == old(p.reparseDeferralEnabled)
    ensures var tried := !p.reparseDeferralEnabled
                         || old(p.bufferEnd + n - p.bufferPtr >= 2 * p.partialTokenBytesBefore);
            p.Progress(old(p.bufferPtr), old(p.partialTokenBytesBefore), tried, old(p.failed), old(p.errorCode),
                       outcome, status)
    ensures status == StatusOk || (status == StatusError && !old(p.failed) && !outcome.suspends) ==>
              p.parsing == Parsing
  {
    hide Pow2, IsFront, Parser.Front, Parser.ContextKept;
    var room := p.GetBuffer(n, true);
    status := p.Hand(seq(n, _ => 'x'), false, true, outcome);
  }

  // An error that is forgotten: a hundred bytes of which none is consumed, a hundred more with which half of the text
  // is consumed before an error, fifty that are put off, and two hundred that the failed parser accepts.
  method ForgottenError() returns (p: Parser, statuses: seq<Status>)
    ensures fresh(p) && p.Valid()
    ensures statuses == [StatusOk, StatusError, StatusOk, StatusOk]
    ensures p.failed && p.errorCode == None && |p.received| == 450
  {
    hide Pow2, IsFront, Parser.Front;
    p := new Parser(true);
    var s1 := Give(p, 100, Outcome(0, None, false));
    var s2 := Give(p, 100, Outcome(150, Some(Content(1)), false));
    var s3 := Give(p, 50, Outcome(0, None, false));
    var s4 := Give(p, 200, Outcome(0, None, false));
    statuses := [s1, s2, s3, s4];
  }

  ghost function Joined(pieces: seq<seq<char>>): seq<char> {
    if pieces == [] then [] else Joined(pieces[..|pieces| - 1]) + pieces[|pieces| - 1]
  }

  lemma {:induction false} JoinedNone()
    ensures Joined([]) == []
  {
  }

  lemma {:induction false} JoinedMore(pieces: seq<seq<char>>, piece: seq<char>)
    ensures Joined(pieces + [piece]) == Joined(pieces) + piece
  {
    assert (pieces + [piece])[..|pieces|] == pieces;
  }
}
