/** File transfers: how many bytes have gone, and which. */
module FileTransfer {
  import opened Modulo

  type Byte = b: int | 0 <= b < 256

  datatype Direction = Send | Receive

  datatype Status = Unknown | NotStarted | Accepted | Started | Done | CancelLocal | CancelRemote

  /** The most that is transferred at a time. */
  const CHUNK := 4096

  /** `size_t` counts modulo a word. */
  type Word = w: nat | w > CHUNK witness CHUNK + 1

  function Min(a: int, b: int): int { if a < b then a else b }

  // ----- how far a transfer gets

  /** What a system call does when at most `most` bytes can go: some of `want`, or it fails. */
  function Gives(want: int, most: nat): (r: int)
    ensures -1 <= r <= most
  {
    if want < 0 then -1 else Min(want, most)
  }

  /** The state after the writes `wants` with `remaining` bytes to go, and the number of bytes that went. */
  function SendRun(remaining: nat, wants: seq<int>): (Status, nat)
    decreases |wants|
  {
    if remaining == 0 then (Done, 0)
    else if wants == [] then (Started, 0)
    else
      var r := Gives(wants[0], Min(remaining, CHUNK));
      if r < 0 then (CancelRemote, 0)
      else
        var (status, n) := SendRun(remaining - r, wants[1..]);
        (status, r + n)
  }

  /** What the writes until the first failure would take of an endless file. */
  function Flow(wants: seq<int>): nat {
    if wants == [] || wants[0] < 0 then 0 else Min(wants[0], CHUNK) + Flow(wants[1..])
  }

  /** A send is done if and only if the writes before the first failure take all of it. */
  lemma {:induction false} SendRunMeaning(remaining: nat, wants: seq<int>)
    ensures var (status, n) := SendRun(remaining, wants);
      && n == Min(remaining, Flow(wants))
      && (status == Done <==> Flow(wants) >= remaining)
      && (status == CancelRemote <==> Flow(wants) < remaining && exists i :: 0 <= i < |wants| && wants[i] < 0)
    decreases |wants|
  {
    if remaining > 0 && wants != [] && wants[0] >= 0 {
      var rest := wants[1..];
      SendRunMeaning(remaining - Min(wants[0], Min(remaining, CHUNK)), rest);
      if i :| 0 <= i < |rest| && rest[i] < 0 {
        assert wants[i + 1] == rest[i];
      }
      if i :| 0 <= i < |wants| && wants[i] < 0 {
        assert rest[i - 1] == wants[i];
      }
    }
  }

  /** A peer that takes something every time gets the whole file. */
  lemma {:induction false} SendEnds(remaining: nat, wants: seq<int>)
    requires |wants| >= remaining && forall i | 0 <= i < |wants| :: wants[i] > 0
    ensures SendRun(remaining, wants) == (Done, remaining)
    decreases |wants|
  {
    if remaining > 0 {
      SendEnds(remaining - Min(wants[0], Min(remaining, CHUNK)), wants[1..]);
    }
  }

  /** A peer that takes all it is given gets 4096 bytes each time and what is left the last time. */
  lemma {:induction false} FullSteps(remaining: nat, wants: seq<int>)
    requires forall i | 0 <= i < |wants| :: wants[i] >= 4096
    ensures SendRun(remaining, wants).0 == Done <==> |wants| >= (remaining + 4095) / 4096
    ensures SendRun(remaining, wants).1 == Min(remaining, |wants| * 4096)
    decreases |wants|
  {
    if remaining > 0 && wants != [] {
      FullSteps(remaining - Min(remaining, 4096), wants[1..]);
    }
  }

  /** The bytes asked for when `left` are missing; a size that is not known leaves any number. */
  function Ask(size: nat, taken: nat): nat {
    if size == 0 then CHUNK else if taken >= size then 0 else Min(size - taken, CHUNK)
  }

  /** The state after the reads `wants`, when the peer sends `len` bytes and `taken` of them have come. */
  function ReceiveRun(size: nat, len: nat, taken: nat, wants: seq<int>): (Status, nat)
    requires taken <= len && (size > 0 ==> taken <= size)
    decreases |wants|
  {
    if size > 0 && taken == size then (Done, taken)
    else if wants == [] then (Started, taken)
    else
      var r := Gives(wants[0], Min(Ask(size, taken), len - taken));
      if r <= 0 then (CancelRemote, taken) else ReceiveRun(size, len, taken + r, wants[1..])
  }

  /** What the reads until the first that fails or finds nothing would take of an endless stream. */
  function Intake(wants: seq<int>): nat {
    if wants == [] || wants[0] <= 0 then 0 else Min(wants[0], CHUNK) + Intake(wants[1..])
  }

  /** A receive of known size is done if and only if the peer sends all of it and it is read before the first failure;
      one of unknown size is never done. */
  lemma {:induction false} ReceiveRunMeaning(size: nat, len: nat, taken: nat, wants: seq<int>)
    requires taken <= len && (size > 0 ==> taken <= size)
    ensures var (status, n) := ReceiveRun(size, len, taken, wants);
      && n == Min(taken + Intake(wants), if size > 0 then Min(size, len) else len)
      && (status == Done <==> size > 0 && n == size)
    decreases |wants|
  {
    if !(size > 0 && taken == size) && wants != [] {
      var r := Gives(wants[0], Min(Ask(size, taken), len - taken));
      if r > 0 {
        ReceiveRunMeaning(size, len, taken + r, wants[1..]);
        IntakeMore(size, len, taken, r, wants);
      }
    }
  }

  lemma IntakeMore(size: nat, len: nat, taken: nat, r: nat, wants: seq<int>)
    requires taken <= len && (size > 0 ==> taken <= size) && wants != []
      && r == Gives(wants[0], Min(Ask(size, taken), len - taken)) && r > 0
    ensures var limit := if size > 0 then Min(size, len) else len;
      Min(taken + Intake(wants), limit) == Min(taken + r + Intake(wants[1..]), limit)
  {
  }

  lemma SliceMore<T>(s: seq<T>, i: nat, n: nat)
    ensures i + n <= |s| ==> s[..i] + s[i..i + n] == s[..i + n]
  {
  }

  function Zeros(n: nat): seq<Byte> { seq(n, _ => 0) }

  // ----- which bytes go

  /** The byte at a place of a file read into a buffer of zeros. */
  function At(content: seq<Byte>, i: nat): Byte { if i < |content| then content[i] else 0 }

  function Bytes(content: seq<Byte>, places: seq<nat>): seq<Byte>
  {
    seq(|places|, i requires 0 <= i < |places| => At(content, places[i]))
  }

  /** `n` places from `pos` on. */
  function Places(pos: nat, n: nat): seq<nat> { seq(n, k requires 0 <= k => pos + k) }

  /** The place after `s` bytes have been asked for at `pos`, and the `s - r` that did not go are taken back. A seek to
      before the beginning fails. */
  function Back(len: nat, pos: nat, s: nat, r: nat): nat
    requires r <= s
  {
    var after := if pos + s <= len then pos + s else if pos <= len then len else pos;
    if after + r >= s then after + r - s else after
  }

  /** The places of the bytes that go in the writes `wants`, of a file of `len` bytes of which `remaining` should go. */
  function Picks(len: nat, pos: nat, remaining: nat, wants: seq<int>): seq<nat>
    decreases |wants|
  {
    if remaining == 0 || wants == [] then []
    else
      var s := Min(remaining, CHUNK);
      var r := Gives(wants[0], s);
      if r < 0 then [] else Places(pos, r) + Picks(len, Back(len, pos, s, r), remaining - r, wants[1..])
  }

  /** The beginning of a file, followed by zeros if it is too short. */
  function Padded(content: seq<Byte>, n: nat): seq<Byte> {
    if n <= |content| then content[..n] else content + Zeros(n - |content|)
  }

  /** The place in the file and the count of the bytes sent stand for the same byte of every file of `len` bytes. */
  predicate Agree(len: nat, pos: nat, sent: nat) { pos == sent || (pos >= len && sent >= len) }

  /** They do at every write that takes something. */
  predicate Orderly(len: nat, pos: nat, sent: nat, remaining: nat, wants: seq<int>)
    decreases |wants|
  {
    remaining == 0 || wants == [] ||
    var s := Min(remaining, CHUNK);
    var r := Gives(wants[0], s);
    r < 0 || ((r > 0 ==> Agree(len, pos, sent))
              && Orderly(len, Back(len, pos, s, r), sent + r, remaining - r, wants[1..]))
  }

  lemma {:induction false} PicksAreSent(len: nat, pos: nat, remaining: nat, wants: seq<int>)
    ensures |Picks(len, pos, remaining, wants)| == SendRun(remaining, wants).1
    decreases |wants|
  {
    if remaining != 0 && wants != [] {
      var s := Min(remaining, CHUNK);
      var r := Gives(wants[0], s);
      if r >= 0 {
        PicksAreSent(len, Back(len, pos, s, r), remaining - r, wants[1..]);
      }
    }
  }

  lemma BytesJoined(content: seq<Byte>, a: seq<nat>, b: seq<nat>)
    ensures Bytes(content, a + b) == Bytes(content, a) + Bytes(content, b)
  {
  }

  lemma PlacesFirst(content: seq<Byte>, pos: nat, s: nat, r: nat)
    requires r <= s
    ensures Bytes(content, Places(pos, s))[..r] == Bytes(content, Places(pos, r))
    ensures pos + r <= |content| ==> Bytes(content, Places(pos, r)) == content[pos..pos + r]
    ensures r == 0 ==> Bytes(content, Places(pos, r)) == []
  {
  }

  lemma PlacesJoined(pos: nat, m: nat, n: nat)
    ensures Places(pos, m) + Places(pos + m, n) == Places(pos, m + n)
  {
  }

  lemma PaddedPlaces(content: seq<Byte>, n: nat)
    ensures Padded(content, n) == Bytes(content, Places(0, n))
  {
  }

  /** The places stand for the same bytes of every file of `len` bytes. */
  ghost predicate Alike(len: nat, a: seq<nat>, b: seq<nat>) {
    forall content: seq<Byte> | |content| == len :: Bytes(content, a) == Bytes(content, b)
  }

  lemma AlikeJoined(len: nat, a: seq<nat>, b: seq<nat>, c: seq<nat>, d: seq<nat>)
    requires |a| == |c|
    ensures Alike(len, a + b, c + d) <==> Alike(len, a, c) && Alike(len, b, d)
  {
    forall content: seq<Byte> | |content| == len
      ensures Bytes(content, a + b) == Bytes(content, c + d) <==>
        Bytes(content, a) == Bytes(content, c) && Bytes(content, b) == Bytes(content, d)
    {
      BytesJoined(content, a, b);
      BytesJoined(content, c, d);
      TwoParts(Bytes(content, a), Bytes(content, b), Bytes(content, c), Bytes(content, d));
    }
  }

  /** What goes is the file and zeros after it, whatever is in the file, if and only if place and count agree at every
      write that takes something. */
  lemma {:induction false} OrderlyMeaning(len: nat, pos: nat, sent: nat, remaining: nat, wants: seq<int>)
    ensures Orderly(len, pos, sent, remaining, wants) <==>
            Alike(len, Picks(len, pos, remaining, wants), Places(sent, SendRun(remaining, wants).1))
    decreases |wants|
  {
    hide Alike, Agree, Gives;
    PicksAreSent(len, pos, remaining, wants);
    AgreeMeaning(len, pos, sent, 0);
    if remaining != 0 && wants != [] {
      var s := Min(remaining, CHUNK);
      var r := Gives(wants[0], s);
      if r >= 0 {
        var pos', rest := Back(len, pos, s, r), wants[1..];
        OrderlyMeaning(len, pos', sent + r, remaining - r, rest);
        var n := SendRun(remaining - r, rest).1;
        PlacesJoined(sent, r, n);
        AlikeJoined(len, Places(pos, r), Picks(len, pos', remaining - r, rest), Places(sent, r), Places(sent + r, n));
        AgreeMeaning(len, pos, sent, r);
      }
    }
  }

  /** If what a write takes is always all that was asked for, place and count agree to the end. */
  lemma {:induction false} FullIsOrderly(len: nat, pos: nat, sent: nat, remaining: nat, wants: seq<int>)
    requires Agree(len, pos, sent) && forall i | 0 <= i < |wants| :: wants[i] < 0 || wants[i] >= CHUNK
    ensures Orderly(len, pos, sent, remaining, wants)
    decreases |wants|
  {
    if remaining != 0 && wants != [] && wants[0] >= 0 {
      var s := Min(remaining, CHUNK);
      FullIsOrderly(len, Back(len, pos, s, s), sent + s, remaining - s, wants[1..]);
    }
  }

  /** They do for every file that is long enough. */
  lemma {:induction false} LongIsOrderly(len: nat, sent: nat, remaining: nat, wants: seq<int>)
    requires sent + remaining <= len
    ensures Orderly(len, sent, sent, remaining, wants)
    decreases |wants|
  {
    if remaining != 0 && wants != [] && wants[0] >= 0 {
      var r := Gives(wants[0], Min(remaining, CHUNK));
      LongIsOrderly(len, sent + r, remaining - r, wants[1..]);
    }
  }

  /** Of a file of ten bytes announced as twenty, bytes are lost, or go twice, when a write is partial. */
  lemma ShortFiles()
    ensures Picks(10, 0, 20, [5, 15]) == Places(0, 5) + Places(10, 15)
    ensures Picks(10, 0, 20, [15, 5]) == Places(0, 15) + Places(5, 5)
    ensures !Orderly(10, 0, 0, 20, [5, 15]) && !Orderly(10, 0, 0, 20, [15, 5])
  {
    assert [5, 15][1..] == [15] && [15, 5][1..] == [5];
    assert Picks(10, 10, 15, [15]) == Places(10, 15) + [] && Picks(10, 5, 5, [5]) == Places(5, 5) + [];
    assert Back(10, 0, 20, 5) == 10 && Back(10, 0, 20, 15) == 5;
  }

  lemma TwoParts(a: seq<Byte>, b: seq<Byte>, c: seq<Byte>, d: seq<Byte>)
    requires |a| == |c|
    ensures a + b == c + d <==> a == c && b == d
  {
    assert (a + b)[..|a|] == a && (c + d)[..|c|] == c && (a + b)[|a|..] == b && (c + d)[|c|..] == d;
  }

  /** If place and count do not agree, some file tells the bytes apart. */
  lemma AgreeMeaning(len: nat, pos: nat, sent: nat, r: nat)
    ensures (r > 0 ==> Agree(len, pos, sent)) <==>
            Alike(len, Places(pos, r), Places(sent, r))
    ensures Places(pos, 0) == []
  {
    if r > 0 && !Agree(len, pos, sent) {
      var one := if pos < len then pos else sent;
      var content: seq<Byte> := seq(len, i => if i == one then 1 else 0);
      assert Bytes(content, Places(pos, r))[0] != Bytes(content, Places(sent, r))[0];
    }
  }

  /** `GaimXfer` */
  class Transfer {
    const kind: Direction
    const word: Word
    var size: nat
    var status: Status
    var bytesSent: nat
    var bytesRemaining: nat
    /** The watcher is set. */
    var watching: bool
    /** The local file: whether it is open, what it holds, and the place in it. */
    var open: bool
    var content: seq<Byte>
    var pos: nat
    /** `gaim_xfer_end` found the transfer complete. */
    var ended: bool
    /** What went to the peer. */
    ghost var wire: seq<Byte>

    function Wrap(x: int): (r: nat)
      ensures r < word && (0 <= x < word ==> r == x)
    {
      x % word
    }

    lemma WrapBack(n: nat, sent: nat)
      requires n < word && sent < word
      ensures Wrap(n - sent) == if n >= sent then n - sent else n - sent + word
    {
      if n < sent {
        ModMultiple(-1, n - sent + word, word);
      }
    }

    lemma WrapAdds(a: nat, b: nat)
      ensures Wrap(Wrap(a) + b) == Wrap(a + b)
    {
      AddMod(a, b, word);
    }

    ghost predicate Counts()
      reads this
    {
      && size < word
      && (size > 0 ==> bytesSent + bytesRemaining == size && bytesSent < size)
      && (size == 0 ==> bytesRemaining == 0)
    }

    /** What has gone to the peer is the beginning of the file, if the file is long enough. */
    ghost predicate Sent()
      reads this
    {
      |wire| == bytesSent <= size && (size <= |content| ==> wire == content[..bytesSent])
    }

    /** The place in the file is the one the counts tell. */
    ghost predicate Placed()
      reads this
    {
      if kind == Send then size <= |content| ==> pos == bytesSent
      else pos == |content| && bytesSent == if size > 0 then |content| else Wrap(|content|)
    }

    ghost predicate Valid()
      reads this
    {
      && (kind == Send ==> Sent())
      && (watching ==> open && status == Started)
      && (status == Started ==> Counts() && if open then Placed() else bytesSent == 0)
      && (status == Done ==> !open && size > 0 && bytesSent == size && (kind == Receive ==> |content| == size))
      && (status in {Unknown, NotStarted, Accepted} ==> bytesSent == 0 && !open)
      && (ended <==> status == Done)
    }

    /** `gaim_xfer_new` */
    constructor (kind: Direction, word: Word, content: seq<Byte>)
      ensures Valid() && this.kind == kind && this.word == word && this.content == content
      ensures size == 0 && status == Unknown && bytesSent == 0 && bytesRemaining == 0 && !open
    {
      this.kind, this.word, this.content := kind, word, content;
      size, status, bytesSent, bytesRemaining, watching, open, pos, ended, wire :=
        0, Unknown, 0, 0, false, false, 0, false, [];
    }

    /** `gaim_xfer_set_size`. In a running transfer the counts stay right if and only if the size was not known
        and the new one is beyond what has gone, or nothing changes. */
    method SetSize(n: nat)
      requires Valid() && n < word
      modifies `size, `bytesRemaining
      ensures size == n && bytesRemaining == if old(size) == 0 then Wrap(n - bytesSent) else old(bytesRemaining)
      ensures old(status) in {Unknown, NotStarted, Accepted} ==> Valid()
      ensures old(status) == Started ==>
        (Counts() <==> if old(size) == 0 then n > bytesSent || (n == 0 && bytesSent == 0) else n == old(size))
    {
      if bytesSent < word {
        WrapBack(n, bytesSent);
      }
      if size == 0 {
        bytesRemaining := Wrap(n - bytesSent);
      }
      size := n;
    }

    /** The bytes the next callback asks for. */
    function Request(): nat
      reads this
    {
      if kind == Receive && size == 0 then CHUNK else Min(bytesRemaining, CHUNK)
    }

    /** `gaim_xfer_read`: `got` is what the system call returns, and `data` what it read. */
    method Read(got: int, data: seq<Byte>) returns (r: int, buffer: seq<Byte>)
      requires -1 <= got <= Request() && |data| == if got < 0 then 0 else got
      modifies `status
      ensures buffer == data
      ensures status == if size > 0 && Wrap(bytesSent + got) >= size then Done else old(status)
      ensures r == if got == 0 && !(size > 0 && Wrap(bytesSent) >= size) then -1 else got
    {
      buffer := data;
      r := got;
      if size > 0 && Wrap(bytesSent + r) >= size {
        status := Done;
      } else if r <= 0 {
        r := -1;
      }
    }

    /** `gaim_xfer_write`: `got` is what the system call returns. */
    method Write(buffer: seq<Byte>, got: int) returns (r: int)
      requires buffer != [] && -1 <= got <= Min(bytesRemaining, |buffer|)
      modifies `status, `wire
      ensures r == got && wire == old(wire) + if got > 0 then buffer[..got] else []
      ensures status == if Wrap(bytesSent + got) >= size then Done else old(status)
    {
      r := got;
      wire := wire + if got > 0 then buffer[..got] else [];
      if Wrap(bytesSent + r) >= size {
        status := Done;
      }
    }

    /** `fread` into a buffer of zeros: at most what the file has left. */
    method ReadFile(s: nat) returns (buffer: seq<Byte>)
      modifies `pos
      ensures buffer == Bytes(content, Places(old(pos), s))
      ensures pos == if old(pos) + s <= |content| then old(pos) + s
        else if old(pos) <= |content| then |content| else old(pos)
    {
      var n := if pos + s <= |content| then s else if pos <= |content| then |content| - pos else 0;
      buffer := if pos <= |content| then content[pos..pos + n] + Zeros(s - n) else Zeros(s);
      pos := pos + n;
    }

    /** `fseek` from the current place; it fails before the beginning. */
    method Seek(offset: int)
      modifies `pos
      ensures pos == if old(pos) + offset >= 0 then old(pos) + offset else old(pos)
    {
      if pos + offset >= 0 {
        pos := pos + offset;
      }
    }

    /** `transfer_cb`: `got` is what `read` or `write` returns. */
    method TransferCb(got: int, data: seq<Byte>)
      requires Valid() && watching
      requires -1 <= got <= Request() && |data| == if got < 0 then 0 else got
      modifies this
      ensures Valid() && size == old(size) && (kind == Send ==> content == old(content))
      ensures kind == Send && old(size) == 0 ==> status == Started && !watching && bytesSent == old(bytesSent)
      ensures kind == Send && old(size) > 0 ==>
        var (s, n) := SendRun(old(bytesRemaining), [got]);
        status == s && bytesSent == old(bytesSent) + n && (watching <==> s == Started)
        && wire == old(wire) + Bytes(content, Places(old(pos), n))
        && (got >= 0 ==> pos == Back(|content|, old(pos), Min(old(bytesRemaining), CHUNK), got))
      ensures kind == Receive ==>
        && content == old(content) + data
        && status == (if got <= 0 then CancelRemote
                      else if size > 0 && old(bytesSent) + got == size then Done else Started)
        && bytesSent == Wrap(old(bytesSent) + |data|) && (watching <==> status == Started)
      ensures ended <==> status == Done
    {
      hide Wrap, SendRun, Bytes, Places, Back;
      var r := 0;
      if kind == Send {
        CallbackRun(bytesRemaining, got);
      }
      if kind == Receive {
        WrapAdds(|content|, |data|);
        r := TakeIn(got, data);
        if r < 0 {
          CancelRemotely();
          return;
        }
      } else {
        var s := Min(bytesRemaining, CHUNK);
        if s == 0 {
          watching := false;
          return;
        }
        SliceMore(content, pos, if got > 0 then got else 0);
        r := PutOut(s, got);
        if r == -1 {
          CancelRemotely();
          return;
        }
      }
      Account(r);
    }

    /** The counts follow, and a transfer that is done ends. */
    method Account(r: nat)
      requires !ended
      modifies `status, `watching, `open, `bytesRemaining, `bytesSent, `ended
      ensures bytesRemaining == (if size > 0 then Wrap(old(bytesRemaining) - r) else old(bytesRemaining))
        && bytesSent == Wrap(old(bytesSent) + r)
      ensures status == old(status) && (ended <==> status == Done)
      ensures if status == Done then !watching && !open else watching == old(watching) && open == old(open)
    {
      if size > 0 {
        bytesRemaining := Wrap(bytesRemaining - r);
      }
      bytesSent := Wrap(bytesSent + r);
      if status == Done {
        End();
      }
    }

    /** What has been read goes to the end of the file. */
    method TakeIn(got: int, data: seq<Byte>) returns (r: int)
      requires -1 <= got <= Request() && |data| == if got < 0 then 0 else got
      modifies `status, `content, `pos
      ensures r == if got == 0 && !(size > 0 && Wrap(bytesSent) >= size) then -1 else got
      ensures status == if size > 0 && Wrap(bytesSent + got) >= size then Done else old(status)
      ensures content == old(content) + data && pos == old(pos) + |data|
    {
      var buffer;
      r, buffer := Read(got, data);
      if r > 0 {
        content := content + buffer;
        pos := pos + r;
      }
    }

    /** The next bytes of the file go out, zeros for those it lacks; the place in the file goes back by what did not go,
        as if all of it had been read. */
    method PutOut(s: nat, got: int) returns (r: int)
      requires 0 < s <= bytesRemaining && -1 <= got <= s
      modifies `status, `pos, `wire
      ensures r == got && wire == old(wire) + Bytes(content, Places(old(pos), if got < 0 then 0 else got))
      ensures |wire| == |old(wire)| + if got < 0 then 0 else got
      ensures got >= 0 ==> pos == Back(|content|, old(pos), s, got)
      ensures got >= 0 && old(pos) + s <= |content| ==>
        pos == old(pos) + got && wire == old(wire) + content[old(pos)..old(pos) + got]
      ensures status == if Wrap(bytesSent + got) >= size then Done else old(status)
    {
      var buffer := ReadFile(s);
      r := Write(buffer, got);
      PlacesFirst(content, old(pos), s, if got < 0 then 0 else got);
      if 0 <= r < s {
        Seek(r - s);
      }
    }

    /** `begin_transfer`; `found` tells whether the file could be opened. */
    method BeginTransfer(found: bool)
      requires Valid() && status == Started && !open && bytesSent == 0
      modifies this
      ensures Valid() && size == old(size) && bytesSent == 0
      ensures if found then status == Started && open && watching && pos == 0
        else status == CancelLocal && !open && !watching
      ensures wire == old(wire) && content == if found && kind == Receive then [] else old(content)
    {
      if !found {
        CancelLocally();
        return;
      }
      open, pos := true, 0;
      if kind == Receive {
        content := [];
      }
      watching := true;
    }

    /** `gaim_xfer_start`: with a connection, or with the address of a peer that `connect_cb` will hear of. */
    method Start(connected: bool, found: bool)
      requires Valid() && !open && size < word
      modifies this
      ensures Valid() && size == old(size) && bytesSent == 0 && wire == []
      ensures connected || kind == Send ==> if found then status == Started && open && watching && pos == 0
        else status == CancelLocal
      ensures !connected && kind == Receive ==> status == Started && !open && !watching
      ensures kind == Send ==> content == old(content)
      ensures kind == Receive && connected && found ==> content == []
    {
      bytesRemaining := size;
      bytesSent := 0;
      wire, ended := [], false;
      status := Started;
      if kind == Receive && !connected {
        return;
      }
      BeginTransfer(found);
    }

    /** `gaim_xfer_end`: ends a transfer that is done, cancels any other. */
    method End()
      requires !ended
      modifies `status, `watching, `open, `bytesRemaining, `ended
      ensures !watching && !open
      ensures if old(status) == Done then status == Done && ended && bytesRemaining == old(bytesRemaining)
              else status == CancelLocal && !ended && bytesRemaining == 0
    {
      if status != Done {
        CancelLocally();
        return;
      }
      ended := true;
      watching, open := false, false;
    }

    /** `gaim_xfer_cancel_local` */
    method CancelLocally()
      modifies `status, `watching, `open, `bytesRemaining
      ensures status == CancelLocal && !watching && !open && bytesRemaining == 0
    {
      status := CancelLocal;
      watching, open := false, false;
      bytesRemaining := 0;
    }

    /** `gaim_xfer_cancel_remote` */
    method CancelRemotely()
      modifies `status, `watching, `open, `bytesRemaining
      ensures status == CancelRemote && !watching && !open && bytesRemaining == 0
    {
      status := CancelRemote;
      watching, open := false, false;
      bytesRemaining := 0;
    }

    // ----- whole transfers

    /** A send with any sequence of partial writes. The peer gets the bytes at the places `Picks` tells; those are the
        beginning of the file if it is long enough, and the file and zeros after it if place and count agree at every
        write. All of it goes if and only if the writes before the first failure take it all. */
    method SendAll(wants: seq<int>)
      requires Valid() && kind == Send && watching && bytesSent == 0 && size > 0
      modifies this
      ensures Valid() && size == old(size) && content == old(content)
      ensures status == SendRun(size, wants).0 && |wire| == bytesSent == SendRun(size, wants).1 && bytesSent <= size
      ensures wire == Bytes(content, Picks(|content|, old(pos), size, wants))
      ensures size <= |content| ==> wire == content[..bytesSent]
      ensures Orderly(|content|, old(pos), 0, size, wants) ==> wire == Padded(content, bytesSent)
      ensures ended <==> bytesSent == size
      ensures ended ==> (wire <= content <==> size <= |content|)
    {
      hide SendRun, Gives, Picks, Orderly, Bytes, Places, Back, Padded;
      var i := 0;
      SendNone(size, wants);
      PicksStart(content, pos, size, wants);
      OrderlyMeaning(|content|, pos, 0, size, wants);
      while i < |wants| && watching
        invariant i <= |wants| && Valid() && size == old(size) && content == old(content)
        invariant watching <==> status == Started
        invariant status == Done || status == Started || status == CancelRemote
        invariant status == Started ==> SendRun(size, wants) == Later(bytesSent, SendRun(size - bytesSent, wants[i..]))
        invariant status != Started ==> SendRun(size, wants) == (status, bytesSent)
        invariant ended <==> bytesSent == size
        invariant status == Started ==>
          Bytes(content, Picks(|content|, old(pos), size, wants)) ==
            wire + Bytes(content, Picks(|content|, pos, size - bytesSent, wants[i..]))
        invariant status != Started ==> Bytes(content, Picks(|content|, old(pos), size, wants)) == wire
      {
        var got := Gives(wants[i], Min(bytesRemaining, CHUNK));
        SendLater(size, wants, bytesSent, wants[i..]);
        PicksLater(content, pos, size - bytesSent, wants[i..], wire);
        TransferCb(got, if got < 0 then [] else Zeros(got));
        assert wants[i..][1..] == wants[i + 1..];
        i := i + 1;
      }
      SendStops(size - bytesSent);
      assert wants[|wants|..] == [];
      PicksEnd(content, pos, size - bytesSent, wire);
      PaddedPlaces(content, bytesSent);
      AlikeBytes(content, Picks(|content|, old(pos), size, wants), Places(0, bytesSent));
    }

    /** A receive when the peer sends `stream` and the reads find any part of it there. The file is the beginning of the
        stream; it is complete if and only if the size was known and all of it came before the first failure. */
    method ReceiveAll(stream: seq<Byte>, wants: seq<int>)
      requires Valid() && kind == Receive && watching && bytesSent == 0 && content == []
      modifies this
      ensures Valid() && size == old(size)
      ensures status == ReceiveRun(size, |stream|, 0, wants).0 && |content| == ReceiveRun(size, |stream|, 0, wants).1
      ensures content <= stream && bytesSent == Wrap(|content|)
      ensures ended <==> size > 0 && |content| == size
    {
      hide ReceiveRun, Gives, Wrap, Ask;
      var i := 0;
      assert wants[0..] == wants;
      while i < |wants| && watching
        invariant i <= |wants| && Valid() && size == old(size) && (watching <==> status == Started)
          && (ended <==> status == Done)
        invariant content <= stream && bytesSent == Wrap(|content|) && (size > 0 ==> |content| <= size)
        invariant status == Started ==>
          && ReceiveRun(size, |stream|, 0, wants) == ReceiveRun(size, |stream|, |content|, wants[i..])
          && (size > 0 ==> |content| < size)
        invariant status != Started ==> ReceiveRun(size, |stream|, 0, wants) == (status, |content|)
        invariant status == Done ==> size > 0 && |content| == size
        invariant status == CancelRemote || status == Done || status == Started
        invariant status == CancelRemote && size > 0 ==> |content| < size
      {
        ReceiveLater(size, |stream|, |content|, wants[i..]);
        var got := Gives(wants[i], Min(Request(), |stream| - |content|));
        var data := if got > 0 then stream[|content|..|content| + got] else [];
        SliceMore(stream, |content|, |data|);
        WrapAdds(|content|, |data|);
        TransferCb(got, data);
        assert wants[i..][1..] == wants[i + 1..];
        i := i + 1;
      }
      assert wants[|wants|..] == [];
      if status == Started {
        ReceiveStops(size, |stream|, |content|);
      }
    }
  }

  function Later(n: nat, run: (Status, nat)): (Status, nat) { (run.0, n + run.1) }

  lemma ReceiveStops(size: nat, len: nat, taken: nat)
    requires taken <= len && (size > 0 ==> taken < size)
    ensures ReceiveRun(size, len, taken, []) == (Started, taken)
  {
  }

  lemma ReceiveLater(size: nat, len: nat, taken: nat, rest: seq<int>)
    requires taken <= len && (size > 0 ==> taken < size) && rest != []
    ensures Ask(size, taken) == if size == 0 then CHUNK else Min(size - taken, CHUNK)
    ensures
      var got := Gives(rest[0], Min(Ask(size, taken), len - taken));
      if got <= 0 then ReceiveRun(size, len, taken, rest) == (CancelRemote, taken)
      else if size > 0 && taken + got == size then ReceiveRun(size, len, taken, rest) == (Done, size)
      else ReceiveRun(size, len, taken, rest) == ReceiveRun(size, len, taken + got, rest[1..])
  {
  }

  lemma CallbackRun(remaining: nat, got: int)
    requires -1 <= got <= Min(remaining, CHUNK)
    ensures remaining > 0 ==>
      SendRun(remaining, [got]) == if got < 0 then (CancelRemote, 0)
        else if got == remaining then (Done, got) else (Started, got)
  {
  }

  lemma SendNone(size: nat, wants: seq<int>)
    ensures SendRun(size, wants) == Later(0, SendRun(size, wants[0..]))
  {
    assert wants[0..] == wants;
  }

  lemma PicksStart(content: seq<Byte>, pos: nat, remaining: nat, wants: seq<int>)
    ensures Bytes(content, Picks(|content|, pos, remaining, wants)) ==
      [] + Bytes(content, Picks(|content|, pos, remaining, wants[0..]))
  {
    assert wants[0..] == wants;
  }

  lemma PicksEnd(content: seq<Byte>, pos: nat, remaining: int, wire: seq<Byte>)
    ensures remaining >= 0 ==> wire + Bytes(content, Picks(|content|, pos, remaining, [])) == wire
  {
  }

  /** The bytes that are still to go after the next write. */
  lemma PicksLater(content: seq<Byte>, pos: nat, remaining: nat, rest: seq<int>, wire: seq<Byte>)
    requires remaining > 0 && rest != []
    ensures
      var s := Min(remaining, CHUNK);
      var got := Gives(rest[0], s);
      var all := wire + Bytes(content, Picks(|content|, pos, remaining, rest));
      if got < 0 then all == wire + Bytes(content, Places(pos, 0)) && all == wire
      else
        && all == wire + Bytes(content, Places(pos, got))
          + Bytes(content, Picks(|content|, Back(|content|, pos, s, got), remaining - got, rest[1..]))
        && (got == remaining ==> all == wire + Bytes(content, Places(pos, got)))
  {
    var s := Min(remaining, CHUNK);
    var got := Gives(rest[0], s);
    if got >= 0 {
      var tail := Picks(|content|, Back(|content|, pos, s, got), remaining - got, rest[1..]);
      BytesJoined(content, Places(pos, got), tail);
      assert wire + (Bytes(content, Places(pos, got)) + Bytes(content, tail)) ==
        wire + Bytes(content, Places(pos, got)) + Bytes(content, tail);
    }
  }

  lemma AlikeBytes(content: seq<Byte>, a: seq<nat>, b: seq<nat>)
    ensures Alike(|content|, a, b) ==> Bytes(content, a) == Bytes(content, b)
  {
  }

  lemma SendStops(remaining: int)
    ensures remaining > 0 ==> SendRun(remaining, []) == (Started, 0)
  {
  }

  lemma SendLater(size: nat, wants: seq<int>, sent: nat, rest: seq<int>)
    requires sent < size && rest != [] && SendRun(size, wants) == Later(sent, SendRun(size - sent, rest))
    ensures
      var got := Gives(rest[0], Min(size - sent, CHUNK));
      if got < 0 then SendRun(size - sent, [got]) == (CancelRemote, 0) && SendRun(size, wants) == (CancelRemote, sent)
      else if sent + got == size then SendRun(size - sent, [got]) == (Done, got) && SendRun(size, wants) == (Done, size)
      else
        && SendRun(size - sent, [got]) == (Started, got)
        && SendRun(size, wants) == Later(sent + got, SendRun(size - sent - got, rest[1..]))
  {
  }
}
