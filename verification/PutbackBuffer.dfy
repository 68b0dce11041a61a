/** The read side of the stream buffer: one array holds a putback area in front of what was last
    read, and underflow slides the last characters down before it reads more. */
module PutbackBuffer {
  import opened Wrappers

  const BUF_SIZE: nat := 4092
  const PBACK_SIZE: nat := 4

  /** `b` with `num` characters of `data` from `pos` on put at `off`. */
  function Overwritten(b: seq<char>, off: nat, data: string, pos: nat, num: nat): (r: seq<char>)
    requires off + num <= |b| && pos + num <= |data|
    ensures |r| == |b|
    ensures forall k :: 0 <= k < |b| ==> r[k] == if off <= k < off + num then data[pos + k - off] else b[k]
  {
    seq(|b|, k requires 0 <= k < |b| => if off <= k < off + num then data[pos + k - off] else b[k])
  }

  /** The file behind the descriptor. */
  class Source {
    const data: string
    var pos: nat

    constructor (data: string)
      ensures this.data == data && pos == 0
    {
      this.data, pos := data, 0;
    }

    /** `read`. How much it delivers is up to the system: `ask` is any number it might choose, and a
        negative one is an error. */
    method Read(buf: array<char>, off: nat, max: nat, ask: int) returns (num: int)
      requires off + max <= buf.Length && pos <= |data|
      modifies buf, this`pos
      ensures num <= max && pos <= |data|
      ensures num <= 0 ==> pos == old(pos)
      ensures num > 0 ==> pos == old(pos) + num
      ensures buf[..] == if num <= 0 then old(buf[..]) else Overwritten(old(buf[..]), off, data, old(pos), num)
      ensures num == Least(ask, Least(max, |data| - old(pos)))
    {
      if ask < 0 {
        return ask;
      }
      num := Least(ask, Least(max, |data| - pos));
      forall i | 0 <= i < num {
        buf[off + i] := data[pos + i];
      }
      pos := pos + num;
    }
  }

  function Least(a: int, b: int): int {
    if a <= b then a else b
  }

  /** How many characters `read` puts behind the putback area, with `left` to go in the file. */
  function Delivered(ask: int, left: nat): int {
    Least(ask, Least(BUF_SIZE - PBACK_SIZE, left))
  }

  /** `b` after the last `np` characters below `g` were copied to just below the read area. */
  function Slid(b: seq<char>, g: nat, np: nat): (r: seq<char>)
    requires np <= PBACK_SIZE <= |b| && np <= g <= |b|
    ensures |r| == |b|
    ensures forall k :: 0 <= k < |b| ==>
      r[k] == if PBACK_SIZE - np <= k < PBACK_SIZE then b[g - PBACK_SIZE + k] else b[k]
  {
    seq(|b|, k requires 0 <= k < |b| => if PBACK_SIZE - np <= k < PBACK_SIZE then b[g - PBACK_SIZE + k] else b[k])
  }

  /** The characters of `b` from `e` to `g` are those of the file that end at `pos`. */
  ghost predicate Window(b: seq<char>, e: nat, g: nat, data: string, pos: nat) {
    e <= g <= |b| && g - e <= pos <= |data| && forall k :: e <= k < g ==> InStep(b, g, data, pos, k)
  }

  /** Position `k` of `b` holds the character of the file that belongs there. */
  ghost predicate InStep(b: seq<char>, g: nat, data: string, pos: nat, k: nat)
    requires k < g <= |b| && g - k <= pos <= |data|
  {
    b[k] == data[pos - g + k]
  }

  /** In the file: of the characters that end at `pos` and stand in the get area from `e` to `g`, those
      in the putback area are repeated by the last ones. With nothing there (`e == 4`) it is so. */
  ghost predicate Repeats(data: string, pos: nat, e: nat, g: nat)
    requires e <= PBACK_SIZE <= g && g - e <= pos <= |data|
  {
    forall k :: e <= k < PBACK_SIZE ==> SameAt(data, pos, g, k)
  }

  predicate SameAt(data: string, pos: nat, g: nat, k: nat)
    requires k < PBACK_SIZE <= g && g - k <= pos <= |data|
  {
    data[pos - g + k] == data[pos - PBACK_SIZE + k]
  }

  class PreBuffer {
    const src: Source
    const buffer: array<char>
    var eback: nat
    var gptr: nat
    var egptr: nat

    /** The get area lies in the array, the putback area below position 4. */
    ghost predicate Shape()
      reads this, src
    {
      && buffer.Length == BUF_SIZE
      && eback <= PBACK_SIZE <= egptr <= BUF_SIZE && eback <= gptr <= egptr
      && egptr - eback <= src.pos <= |src.data|
    }

    /** The get area holds the characters of the file that end where reading has got to. */
    ghost predicate Valid()
      reads this, src, buffer
    {
      Shape() && Window(buffer[..], eback, egptr, src.data, src.pos)
    }

    /** The place in the file of the next character. */
    ghost function Position(): nat
      requires Shape()
      reads this, src
    {
      src.pos - (egptr - gptr)
    }

    constructor (src: Source)
      requires src.pos <= |src.data|
      ensures Valid() && this.src == src && fresh(buffer) && Position() == src.pos && gptr == eback
    {
      this.src := src;
      buffer := new char[BUF_SIZE](_ => ' ');
      eback, gptr, egptr := PBACK_SIZE, PBACK_SIZE, PBACK_SIZE;
    }

    /** `underflow`. A failed one, at the end of the file, leaves the pointers but has slid the
        characters: the get area still holds the file exactly when the file repeats there. */
    method Underflow(ask: int) returns (c: Option<char>)
      requires Shape()
      modifies this, buffer, src`pos
      ensures Shape() && Position() == old(Position())
      ensures c.Some? ==> gptr < egptr && c.value == buffer[gptr] && (old(Valid()) ==> Valid())
      ensures c.Some? && (old(Valid()) || old(gptr == egptr)) ==>
        Position() < |src.data| && c.value == src.data[Position()]
      ensures c.Some? ==>
        gptr - eback == if old(gptr < egptr) then old(gptr - eback) else Least(PBACK_SIZE, old(gptr - eback))
      ensures c.Some? && old(gptr == egptr) ==>
        gptr == PBACK_SIZE && egptr == gptr + Delivered(ask, |src.data| - old(src.pos))
      ensures c.None? <==> old(gptr == egptr) && (ask <= 0 || old(src.pos) == |src.data|)
      ensures c.None? || old(gptr < egptr) ==>
        src.pos == old(src.pos) && eback == old(eback) && gptr == old(gptr) && egptr == old(egptr)
      ensures old(gptr < egptr) ==> buffer[..] == old(buffer[..])
      ensures c.None? ==> buffer[..] == Slid(old(buffer[..]), gptr, Least(PBACK_SIZE, gptr - eback))
      ensures c.None? && old(Valid()) ==> (Valid() <==> Repeats(src.data, src.pos, eback, egptr))
      ensures c.None? && old(Valid()) && eback == PBACK_SIZE ==> Valid()
    {
      if gptr < egptr {
        assert Valid() ==> InStep(buffer[..], egptr, src.data, src.pos, gptr);
        return Some(buffer[gptr]);
      }
      c := Refill(ask);
    }

    /** The rest of `underflow`: nothing is left to read in the buffer. */
    method Refill(ask: int) returns (c: Option<char>)
      requires Shape() && gptr == egptr
      modifies this, buffer, src`pos
      ensures Shape() && Position() == old(Position())
      ensures c.Some? ==> gptr < egptr && c.value == buffer[gptr] && (old(Valid()) ==> Valid())
      ensures c.Some? ==> Position() < |src.data| && c.value == src.data[Position()]
      ensures c.Some? ==> gptr - eback == Least(PBACK_SIZE, old(gptr - eback))
      ensures c.Some? ==> gptr == PBACK_SIZE && egptr == gptr + Delivered(ask, |src.data| - old(src.pos))
      ensures c.None? <==> ask <= 0 || old(src.pos) == |src.data|
      ensures c.None? ==> src.pos == old(src.pos) && eback == old(eback) && gptr == old(gptr) && egptr == old(egptr)
      ensures c.None? ==> buffer[..] == Slid(old(buffer[..]), gptr, Least(PBACK_SIZE, gptr - eback))
      ensures c.None? && old(Valid()) ==> (Valid() <==> Repeats(src.data, src.pos, eback, egptr))
    {
      var numPutback, num := Fill(ask);
      if num <= 0 {
        return None;
      }
      SetGet(PBACK_SIZE - numPutback, PBACK_SIZE, PBACK_SIZE + num);
      c := Some(buffer[gptr]);
    }

    /** Lines 39-48, and what the buffer holds then. */
    method Fill(ask: int) returns (numPutback: nat, num: int)
      requires Shape() && gptr == egptr
      modifies buffer, src`pos
      ensures numPutback == Least(PBACK_SIZE, gptr - eback)
      ensures num == Delivered(ask, |src.data| - old(src.pos))
      ensures num <= 0 ==> src.pos == old(src.pos) && buffer[..] == Slid(old(buffer[..]), gptr, numPutback)
      ensures num <= 0 && old(Valid()) ==> (Valid() <==> Repeats(src.data, src.pos, eback, egptr))
      ensures num > 0 ==> src.pos == old(src.pos) + num && buffer[PBACK_SIZE] == src.data[old(src.pos)]
      ensures num > 0 && old(Valid()) ==>
        Window(buffer[..], PBACK_SIZE - numPutback, PBACK_SIZE + num, src.data, src.pos)
    {
      ghost var b, pos := buffer[..], src.pos;
      numPutback, num := SlideAndRead(ask);
      if num > 0 {
        ghost var after := buffer[..];
        assert buffer[PBACK_SIZE] == after[PBACK_SIZE];
        Refilled(b, after, eback, gptr, numPutback, src.data, pos, num);
      } else if old(Valid()) {
        EofKeepsWindowIff(b, eback, gptr, src.data, pos);
      }
    }

    /** Lines 39-48: the slide and the read, before the pointers follow. */
    method SlideAndRead(ask: int) returns (numPutback: nat, num: int)
      requires Shape() && gptr == egptr
      modifies buffer, src`pos
      ensures numPutback == Least(PBACK_SIZE, gptr - eback)
      ensures num == Delivered(ask, |src.data| - old(src.pos))
      ensures num <= 0 ==> src.pos == old(src.pos) && buffer[..] == Slid(old(buffer[..]), gptr, numPutback)
      ensures num > 0 ==> src.pos == old(src.pos) + num <= |src.data|
      ensures num > 0 ==>
        buffer[..] == Overwritten(Slid(old(buffer[..]), gptr, numPutback), PBACK_SIZE, src.data, old(src.pos), num)
    {
      numPutback := Slide();
      num := src.Read(buffer, PBACK_SIZE, BUF_SIZE - PBACK_SIZE, ask);
    }

    /** `setg`. */
    method SetGet(e: nat, g: nat, eg: nat)
      requires buffer.Length == BUF_SIZE && e <= PBACK_SIZE <= eg <= BUF_SIZE && e <= g <= eg
      requires eg - e <= src.pos <= |src.data|
      modifies this`eback, this`gptr, this`egptr
      ensures eback == e && gptr == g && egptr == eg && Shape()
      ensures Valid() <==> Window(buffer[..], e, eg, src.data, src.pos)
    {
      eback, gptr, egptr := e, g, eg;
    }

    /** Lines 39-46: how many characters stay for putback, and the copy, taken as safe for
        overlapping ranges. */
    method Slide() returns (numPutback: nat)
      requires Shape() && gptr == egptr
      modifies buffer
      ensures numPutback == Least(PBACK_SIZE, gptr - eback)
      ensures buffer[..] == Slid(old(buffer[..]), gptr, numPutback)
    {
      numPutback := gptr - eback;
      if numPutback > PBACK_SIZE {
        numPutback := PBACK_SIZE;
      }
      var dst, from := PBACK_SIZE - numPutback, gptr - numPutback;
      forall i | 0 <= i < numPutback {
        buffer[dst + i] := buffer[from + i];
      }
    }

    /** `sbumpc`: the next character, and one step on. */
    method Bumpc(ask: int) returns (c: Option<char>)
      requires Shape()
      modifies this, buffer, src`pos
      ensures Shape()
      ensures c.Some? ==> Position() == old(Position()) + 1 && (old(Valid()) ==> Valid())
      ensures c.Some? && (old(Valid()) || old(gptr == egptr)) ==>
        old(Position()) < |src.data| && c.value == src.data[old(Position())]
      ensures c.Some? && old(gptr < egptr) ==> c.value == old(buffer[gptr])
      ensures c.Some? ==>
        gptr - eback == (if old(gptr < egptr) then old(gptr - eback) else Least(PBACK_SIZE, old(gptr - eback))) + 1
      ensures c.Some? && old(gptr == egptr) ==>
        gptr == PBACK_SIZE + 1 && egptr == PBACK_SIZE + Delivered(ask, |src.data| - old(src.pos))
      ensures c.None? <==> old(gptr == egptr) && (ask <= 0 || old(src.pos) == |src.data|)
      ensures c.None? ==> src.pos == old(src.pos) && eback == old(eback) && gptr == old(gptr) && egptr == old(egptr)
      ensures c.None? && old(Valid()) ==> (Valid() <==> Repeats(src.data, src.pos, eback, egptr))
    {
      ghost var was := buffer[..];
      c := Underflow(ask);
      assert old(gptr < egptr) ==> buffer[gptr] == was[gptr];
      if c.Some? {
        gptr := gptr + 1;
      }
    }

    /** `sungetc`: one step back, as far as the putback area reaches, to what the array holds there. */
    method Ungetc() returns (c: Option<char>)
      requires Shape()
      modifies this`gptr
      ensures Shape() && (old(Valid()) ==> Valid())
      ensures c.Some? <==> old(gptr > eback)
      ensures c.Some? ==> gptr == old(gptr) - 1 && Position() == old(Position()) - 1 && c.value == buffer[gptr]
      ensures c.Some? && old(Valid()) ==> c.value == src.data[Position()]
      ensures c.None? ==> gptr == old(gptr)
    {
      if eback < gptr {
        gptr := gptr - 1;
        assert Valid() ==> InStep(buffer[..], egptr, src.data, src.pos, gptr);
        return Some(buffer[gptr]);
      }
      return None;
    }
  }

  /** After the slide and the read, the new get area continues the file without a gap. */
  lemma Refilled(b: seq<char>, after: seq<char>, e: nat, g: nat, np: nat, data: string, pos: nat, num: nat)
    requires PBACK_SIZE + num <= |b| && pos + num <= |data|
    requires e <= PBACK_SIZE <= g <= |b| && np == Least(PBACK_SIZE, g - e)
    requires after == Overwritten(Slid(b, g, np), PBACK_SIZE, data, pos, num)
    ensures Window(b, e, g, data, pos) ==> Window(after, PBACK_SIZE - np, PBACK_SIZE + num, data, pos + num)
    ensures num > 0 ==> after[PBACK_SIZE] == data[pos]
  {
    if Window(b, e, g, data, pos) {
      var slid := Slid(b, g, np);
      var to, end := PBACK_SIZE + num, pos + num;
      forall k | PBACK_SIZE - np <= k < to ensures InStep(after, to, data, end, k)
      {
        if k < PBACK_SIZE {
          assert after[k] == slid[k] == b[g - PBACK_SIZE + k];
          assert InStep(b, g, data, pos, g - PBACK_SIZE + k);
        }
      }
    }
  }

  /** A slide with nothing read behind it keeps the get area in step with the file exactly when the
      file repeats there. */
  lemma EofKeepsWindowIff(b: seq<char>, e: nat, g: nat, data: string, pos: nat)
    requires PBACK_SIZE <= |b| && e <= PBACK_SIZE <= g && Window(b, e, g, data, pos)
    ensures Window(Slid(b, g, Least(PBACK_SIZE, g - e)), e, g, data, pos) <==> Repeats(data, pos, e, g)
  {
    var s := Slid(b, g, Least(PBACK_SIZE, g - e));
    forall k | e <= k < g
      ensures InStep(s, g, data, pos, k) <==> k >= PBACK_SIZE || SameAt(data, pos, g, k)
    {
      if k < PBACK_SIZE {
        assert s[k] == b[g - PBACK_SIZE + k];
        assert InStep(b, g, data, pos, g - PBACK_SIZE + k);
      } else {
        assert InStep(b, g, data, pos, k);
      }
    }
    if Window(s, e, g, data, pos) {
      forall k | e <= k < PBACK_SIZE ensures SameAt(data, pos, g, k) {
        assert InStep(s, g, data, pos, k);
      }
    }
  }

  /** A file of one character for each of two reads: after its end, stepping back twice gives the last
      character twice. */
  method SecondRefillThenEof() returns (read: seq<Option<char>>, back: seq<Option<char>>)
    ensures read == [Some('a'), Some('b'), None]
    ensures back == [Some('b'), Some('b')]
  {
    var src := new Source("ab");
    var b := new PreBuffer(src);
    var x := b.Bumpc(1);
    var y := b.Bumpc(1);
    ghost var was := b.buffer[..];
    assert b.gptr == b.egptr == 5 && b.eback == 3 && InStep(was, 5, src.data, 2, 4);
    var z := b.Underflow(1);
    read := [x, y, z];
    assert b.buffer[..][3] == was[4] && b.buffer[..][4] == was[4];
    x := b.Ungetc();
    y := b.Ungetc();
    back := [x, y];
  }

  // ---- Whole runs ----

  /** A request of the reader: the next character, with what `read` would deliver, or one step back. */
  datatype Request = Forward(ask: int) | Back

  datatype Step = Got(c: char) | Ungot(c: char) | Stuck

  /** A reader of the file: where it stands, and how many steps back it is sure of. */
  datatype Reader = Reader(at: int, room: nat)

  function Moved(r: Reader, s: Step): Reader {
    match s
    case Got(_) => Reader(r.at + 1, Least(PBACK_SIZE, r.room) + 1)
    case Ungot(_) => Reader(r.at - 1, if r.room == 0 then 0 else r.room - 1)
    case Stuck => r
  }

  function After(r: Reader, steps: seq<Step>): Reader {
    if steps == [] then r else Moved(After(r, steps[..|steps| - 1]), steps[|steps| - 1])
  }

  /** The step hands out what stands in the file there, and stepping back fails only with no room. */
  predicate StepRight(data: string, r: Reader, s: Step) {
    match s
    case Got(c) => 0 <= r.at < |data| && c == data[r.at]
    case Ungot(c) => 0 < r.at <= |data| && c == data[r.at - 1]
    case Stuck => r.room == 0
  }

  ghost predicate FollowsFile(data: string, r: Reader, steps: seq<Step>) {
    forall i :: 0 <= i < |steps| ==> StepRight(data, After(r, steps[..i]), steps[i])
  }

  lemma FollowsSnoc(data: string, r: Reader, steps: seq<Step>, s: Step)
    requires FollowsFile(data, r, steps) && StepRight(data, After(r, steps), s)
    ensures FollowsFile(data, r, steps + [s])
    ensures After(r, steps + [s]) == Moved(After(r, steps), s)
  {
    var more := steps + [s];
    assert more[..|steps|] == steps;
    forall i | 0 <= i < |more| ensures StepRight(data, After(r, more[..i]), more[i]) {
      if i < |steps| {
        assert more[..i] == steps[..i] && more[i] == steps[i];
      }
    }
  }

  /** One request, answered by the buffer. */
  method Answer(b: PreBuffer, request: Request, ghost r: Reader) returns (s: Option<Step>)
    requires b.Valid() && b.Position() == r.at && r.room <= b.gptr - b.eback
    modifies b, b.buffer, b.src`pos
    ensures s.None? ==> request.Forward? && (request.ask <= 0 || b.src.pos == |b.src.data|)
    ensures s.None? ==> b.Shape() && (b.Valid() <==> Repeats(b.src.data, b.src.pos, b.eback, b.egptr))
    ensures s.Some? ==> b.Valid() && StepRight(b.src.data, r, s.value) && (s.value.Got? <==> request.Forward?)
    ensures s.Some? ==> var after := Moved(r, s.value); b.Position() == after.at && after.room <= b.gptr - b.eback
  {
    match request
    case Forward(ask) =>
      var c := b.Bumpc(ask);
      return if c.Some? then Some(Got(c.value)) else None;
    case Back =>
      var c := b.Ungetc();
      return Some(if c.Some? then Ungot(c.value) else Stuck);
  }

  /** Any run of requests up to the first end of file, whatever sizes `read` returns: what is handed
      out follows the file in order, and stepping back fails only when the last refill, which keeps
      four characters, left no more room. */
  method Replay(b: PreBuffer, requests: seq<Request>) returns (steps: seq<Step>, ended: bool)
    requires b.Valid()
    modifies b, b.buffer, b.src`pos
    ensures |steps| <= |requests| && FollowsFile(b.src.data, Reader(old(b.Position()), 0), steps)
    ensures forall i :: 0 <= i < |steps| ==> (steps[i].Got? <==> requests[i].Forward?)
    ensures !ended ==> |steps| == |requests| && b.Valid()
    ensures !ended ==> b.Position() == After(Reader(old(b.Position()), 0), steps).at
    ensures ended ==> |steps| < |requests| && requests[|steps|].Forward?
    ensures ended ==> requests[|steps|].ask <= 0 || b.src.pos == |b.src.data|
    ensures ended ==> b.Shape() && (b.Valid() <==> Repeats(b.src.data, b.src.pos, b.eback, b.egptr))
  {
    steps, ended := [], false;
    ghost var from := Reader(b.Position(), 0);
    for i := 0 to |requests|
      invariant |steps| == i && b.Valid() && FollowsFile(b.src.data, from, steps)
      invariant b.Position() == After(from, steps).at && After(from, steps).room <= b.gptr - b.eback
      invariant forall i :: 0 <= i < |steps| ==> (steps[i].Got? <==> requests[i].Forward?)
    {
      var s := Answer(b, requests[i], After(from, steps));
      if s.None? { return steps, true; }
      FollowsSnoc(b.src.data, from, steps, s.value);
      steps := steps + [s.value];
    }
  }
}
