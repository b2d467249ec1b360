/** The MPCL circuit file format: Marshal (circuit/marshal.go) and ParseMPCLC
    (circuit/parser.go). */
module Format {
  import opened Nat
  import opened Circuit
  import opened Garble

  type Byte = b: nat | b < 256

  const WORD := 0x1_0000_0000
  const HALF := 0x8000_0000
  const MAGIC := 0x63726300

  /** An argument as the file holds it.  A type is its text; which texts are
      types is a parameter.  Its size is a signed 32-bit number. */
  datatype Arg = Arg(name: seq<Byte>, typ: seq<Byte>, bits: int, compound: seq<Arg>)

  datatype File = File(numWires: nat, inputs: seq<Arg>, outputs: seq<Arg>, gates: seq<Gate>)

  // ----- What the bytes of a circuit are -----

  /** A big-endian 32-bit number; larger and negative ones are cut, as uint32
      does. */
  function U32(n: int): (bytes: seq<Byte>)
    ensures |bytes| == 4
  {
    [(n / 256 / 256 / 256) % 256, (n / 256 / 256) % 256, (n / 256) % 256, n % 256]
  }

  function Number(a: Byte, b: Byte, c: Byte, d: Byte): (n: nat)
    ensures n < WORD
  {
    a * 0x1000000 + b * 0x10000 + c * 0x100 + d
  }

  predicate IsSize(n: int) {
    0 - HALF <= n < HALF
  }

  /** The conversions between sizes and their fields: types.Size(ui32), uint32. */
  function SizeOf(n: nat): (size: int)
    requires n < WORD
    ensures IsSize(size)
  {
    if n < HALF then n else n - WORD
  }

  function FieldOf(size: int): (n: nat)
    requires IsSize(size)
    ensures n < WORD && SizeOf(n) == size
  {
    if size < 0 then size + WORD else size
  }

  /** A size and its field are the same bytes. */
  lemma SameField(n: nat)
    requires n < WORD
    ensures FieldOf(SizeOf(n)) == n && U32(SizeOf(n)) == U32(n)
  {
    var m := n - WORD;
    DivModDef(n, 256);
    DivModUnique(m, 256, n / 256 - 0x1000000, n % 256);
    DivModDef(n / 256, 256);
    DivModUnique(m / 256, 256, n / 256 / 256 - 0x10000, n / 256 % 256);
    DivModDef(n / 256 / 256, 256);
    DivModUnique(m / 256 / 256, 256, n / 256 / 256 / 256 - 0x100, n / 256 / 256 % 256);
    DivModUnique(m / 256 / 256 / 256, 256, n / 256 / 256 / 256 / 256 - 1, n / 256 / 256 / 256 % 256);
  }

  lemma U32Number(n: nat)
    requires n < WORD
    ensures var b := U32(n); Number(b[0], b[1], b[2], b[3]) == n
  {
    var q1 := n / 256;
    var q2 := q1 / 256;
    var q3 := q2 / 256;
    assert n == 256 * q1 + n % 256 && q1 == 256 * q2 + q1 % 256 && q2 == 256 * q3 + q2 % 256;
    assert q3 < 256;
    assert U32(n) == [q3, q2 % 256, q1 % 256, n % 256];
  }

  function StringBytes(s: seq<Byte>): (bytes: seq<Byte>)
    ensures |bytes| == 4 + |s|
  {
    U32(|s|) + s
  }

  function ArgBytes(a: Arg): seq<Byte> {
    StringBytes(a.name) + (StringBytes(a.typ) + (U32(a.bits) + (U32(|a.compound|) + ArgsBytes(a.compound))))
  }

  function ArgsBytes(args: seq<Arg>): seq<Byte> {
    if args == [] then [] else ArgBytes(args[0]) + ArgsBytes(args[1..])
  }

  function OpByte(op: Op): Byte {
    match op
    case XOR => 0
    case XNOR => 1
    case AND => 2
    case OR => 3
    case INV => 4
    case Other(_) => 5
  }

  function GateBytes(g: Gate): seq<Byte> {
    [OpByte(g.op)] + (U32(g.input0) + (if g.op == INV then U32(g.output) else U32(g.input1) + U32(g.output)))
  }

  function GatesBytes(gates: seq<Gate>): seq<Byte> {
    if gates == [] then [] else GateBytes(gates[0]) + GatesBytes(gates[1..])
  }

  function FileBytes(c: File): seq<Byte> {
    U32(MAGIC) + (U32(|c.gates|) + (U32(c.numWires) + (U32(|c.inputs|) + (U32(|c.outputs|)
    + (ArgsBytes(c.inputs) + (ArgsBytes(c.outputs) + GatesBytes(c.gates)))))))
  }

  // ----- Writing -----

  method MarshalArgs(args: seq<Arg>) returns (out: seq<Byte>)
    ensures out == ArgsBytes(args)
    decreases args, 1
  {
    out := [];
    assert args[0..] == args;
    for i := 0 to |args|
      invariant ArgsBytes(args) == out + ArgsBytes(args[i..])
    {
      var bytes := MarshalArg(args[i]);
      assert args[i..][0] == args[i] && args[i..][1..] == args[i + 1..];
      out := out + bytes;
    }
  }

  /** marshalIOArg */
  method MarshalArg(a: Arg) returns (out: seq<Byte>)
    ensures out == ArgBytes(a)
    decreases a, 0
  {
    out := StringBytes(a.name) + StringBytes(a.typ);
    out := out + U32(a.bits) + U32(|a.compound|);
    var parts := MarshalArgs(a.compound);
    out := out + parts;
  }

  method MarshalGates(gates: seq<Gate>) returns (r: Result<seq<Byte>>)
    ensures r.Ok? <==> ValidOps(gates)
    ensures r.Ok? ==> r.value == GatesBytes(gates)
  {
    hide U32;
    var body: seq<Byte> := [];
    assert gates[0..] == gates;
    for i := 0 to |gates|
      invariant ValidOps(gates[..i]) && GatesBytes(gates) == body + GatesBytes(gates[i..])
    {
      var g := gates[i];
      assert gates[i..][0] == g && gates[i..][1..] == gates[i + 1..];
      assert gates[..i + 1] == gates[..i] + [g];
      if g.op.Other? {
        assert g in gates;
        return Err;
      }
      body := body + GateBytes(g);
    }
    assert gates[..|gates|] == gates;
    return Ok(body);
  }

  /** Marshal; refuses gates of unknown type. */
  method Marshal(c: File) returns (r: Result<seq<Byte>>)
    ensures r.Ok? <==> ValidOps(c.gates)
    ensures r.Ok? ==> r.value == FileBytes(c)
  {
    hide U32, ArgsBytes, GatesBytes;
    var out := U32(MAGIC) + U32(|c.gates|) + U32(c.numWires) + U32(|c.inputs|) + U32(|c.outputs|);
    var ins := MarshalArgs(c.inputs);
    var outs := MarshalArgs(c.outputs);
    var body := MarshalGates(c.gates);
    if body.Err? {
      return Err;
    }
    assert out + ins + outs + body.value == FileBytes(c);
    return Ok(out + ins + outs + body.value);
  }

  // ----- Reading -----

  /** The bytes at `pos` are these. */
  predicate At(data: seq<Byte>, pos: nat, bytes: seq<Byte>) {
    pos + |bytes| <= |data| && data[pos..pos + |bytes|] == bytes
  }

  lemma AtSplit(data: seq<Byte>, pos: nat, u: seq<Byte>, v: seq<Byte>)
    ensures At(data, pos, u + v) <==> At(data, pos, u) && At(data, pos + |u|, v)
  {
    if At(data, pos, u + v) {
      assert (u + v)[..|u|] == u && (u + v)[|u|..] == v;
      assert data[pos..pos + |u + v|][..|u|] == data[pos..pos + |u|];
      assert data[pos..pos + |u + v|][|u|..] == data[pos + |u|..pos + |u| + |v|];
    }
    if At(data, pos, u) && At(data, pos + |u|, v) {
      assert data[pos..pos + |u + v|] == data[pos..pos + |u|] + data[pos + |u|..pos + |u| + |v|];
    }
  }

  /** How many bytes one Read call delivers at most at each position: at least
      one, but a buffered reader may stop at the end of its buffer. */
  type Room = nat -> nat

  /** A string of `n` bytes at `pos` comes in one piece. */
  predicate Whole(room: Room, pos: nat, n: nat) {
    n == 0 || room(pos) >= n
  }

  predicate WholeArg(room: Room, pos: nat, a: Arg)
    decreases a
  {
    && Whole(room, pos + 4, |a.name|) && Whole(room, pos + 4 + |a.name| + 4, |a.typ|)
    && WholeArgs(room, pos + 4 + |a.name| + 4 + |a.typ| + 8, a.compound)
  }

  predicate WholeArgs(room: Room, pos: nat, args: seq<Arg>)
    decreases args
  {
    args == [] || (WholeArg(room, pos, args[0]) && WholeArgs(room, pos + |ArgBytes(args[0])|, args[1..]))
  }

  /** Numbers fit their field and types are known. */
  predicate ArgOk(known: seq<Byte> -> bool, a: Arg) {
    |a.name| < WORD && |a.typ| < WORD && IsSize(a.bits) && |a.compound| < WORD && known(a.typ) && ArgsOk(known, a.compound)
  }

  predicate ArgsOk(known: seq<Byte> -> bool, args: seq<Arg>) {
    args == [] || (ArgOk(known, args[0]) && ArgsOk(known, args[1..]))
  }

  /** What stands before the parts of an argument. */
  datatype Fields = Fields(name: seq<Byte>, typ: seq<Byte>, bits: int, count: nat)

  function FieldsSize(name: seq<Byte>, typ: seq<Byte>): nat {
    |StringBytes(name)| + |StringBytes(typ)| + 8
  }

  class Reader {
    const data: seq<Byte>
    const room: Room
    const known: seq<Byte> -> bool
    var pos: nat

    constructor (data: seq<Byte>, room: Room, known: seq<Byte> -> bool)
      ensures this.data == data && this.room == room && this.known == known && pos == 0
    {
      this.data, this.room, this.known := data, room, known;
      pos := 0;
    }

    /** binary.Read of a uint32, which reads all four bytes or fails.  Here and
        below the ghost parameter is any value whose bytes may be there. */
    method Read32(ghost n: nat) returns (r: Result<nat>)
      modifies this
      ensures r.Ok? <==> old(pos) + 4 <= |data|
      ensures r.Ok? ==> r.value == NumberAt(data, old(pos)) < WORD && pos == old(pos) + 4 && At(data, old(pos), U32(r.value))
      ensures n < WORD && At(data, old(pos), U32(n)) ==> r == Ok(n)
    {
      hide U32;
      if pos + 4 > |data| {
        return Err;
      }
      r := Ok(NumberAt(data, pos));
      NumberWritten(data, pos);
      if n < WORD && At(data, pos, U32(n)) {
        NumberReadBack(data, pos, n);
      }
      pos := pos + 4;
    }

    /** parseString: the length, and one Read for the bytes.  When that read
        comes short, the rest of the string is zeros. */
    method ParseString(ghost s: seq<Byte>) returns (r: Result<seq<Byte>>)
      modifies this
      ensures r == StringRead(data, room, old(pos)).0 && (r.Ok? ==> pos == StringRead(data, room, old(pos)).1 >= old(pos) + 4)
      ensures |s| < WORD && At(data, old(pos), StringBytes(s)) && Whole(room, old(pos) + 4, |s|) ==>
                r == Ok(s) && pos == old(pos) + |StringBytes(s)|
      ensures Unlimited(room, |data|) && r.Ok? && pos < |data| ==> StringIs(data, old(pos), pos, r.value)
    {
      hide U32, At, StringBytes, Unlimited, StringIs, NumberAt;
      ghost var at := pos;
      if Unlimited(room, |data|) {
        StringReadMeans(data, room, pos);
      }
      if At(data, at, StringBytes(s)) {
        LayStringOut(data, at, s);
      }
      var n := Read32(|s|);
      if n.Err? {
        return Err;
      }
      if n.value == 0 {
        return Ok([]);
      }
      if pos >= |data| {
        NoRoom(data, pos, s);
        return Err;
      }
      var k := Min(n.value, Min(room(pos), |data| - pos));
      r := Ok(data[pos..pos + k] + Zeros(n.value - k));
      if |s| < WORD && At(data, at, StringBytes(s)) && Whole(room, at + 4, |s|) {
        ReadWhole(data, at + 4, s, k, r.value);
      }
      pos := pos + k;
    }

    /** The fields of an argument, up to the number of its parts. */
    method ParseFields(ghost a: Arg) returns (r: Result<Fields>)
      modifies this
      ensures r.Ok? ==> pos >= old(pos) + 16 && pos <= |data|
      ensures ArgOk(known, a) && ArgLaidOut(data, old(pos), a) && WholeArg(room, old(pos), a) ==>
                r == Ok(Fields(a.name, a.typ, a.bits, |a.compound|)) && pos == old(pos) + FieldsSize(a.name, a.typ)
      ensures Unlimited(room, |data|) && r.Ok? ==> FieldsAre(known, data, old(pos), pos, r.value)
    {
      hide U32, At, StringBytes, Whole, Unlimited, StringIs, ArgOk, WholeArg, ArgLaidOut, FieldsAre, StringRead, NumberAt;
      ghost var p0 := pos;
      ghost var sure := ArgOk(known, a) && ArgLaidOut(data, p0, a) && WholeArg(room, p0, a);
      if sure {
        FieldsExpected(known, room, data, p0, a);
      }
      var name := ParseString(a.name);
      if name.Err? {
        return Err;
      }
      ghost var p1 := pos;
      var typ := ParseString(a.typ);
      if typ.Err? {
        return Err;
      }
      ghost var p2 := pos;
      ghost var field := 0;
      if sure {
        field := FieldOf(a.bits);
        SameField(field);
      }
      var bits := Read32(field);
      if bits.Err? || !known(typ.value) {
        return Err;
      }
      var count := Read32(|a.compound|);
      if count.Err? {
        return Err;
      }
      NumberEnds(data, p2 + 4, count.value);
      SameField(bits.value);
      r := Ok(Fields(name.value, typ.value, SizeOf(bits.value), count.value));
      if Unlimited(room, |data|) {
        MakeFields(known, data, p0, p1, p2, r.value);
      }
    }

    /** parseIOArg */
    method ParseArg(ghost a: Arg) returns (r: Result<Arg>)
      modifies this
      ensures r.Ok? ==> pos >= old(pos) + 16
      ensures ArgOk(known, a) && At(data, old(pos), ArgBytes(a)) && WholeArg(room, old(pos), a) ==>
                r == Ok(a) && pos == old(pos) + |ArgBytes(a)|
      ensures Unlimited(room, |data|) && r.Ok? ==> ArgIs(known, data, old(pos), pos, r.value)
      decreases if pos <= |data| then |data| - pos else 0, 0
    {
      hide U32, At, ArgBytes, ArgsBytes, ArgsOk, WholeArgs, Unlimited, ArgIs, ArgsAre, FieldsAre;
      ghost var p0 := pos;
      if At(data, pos, ArgBytes(a)) {
        LayArgOut(data, pos, a);
      }
      var f := ParseFields(a);
      if f.Err? {
        return Err;
      }
      ghost var p1 := pos;
      var parts := ParseArgs(f.value.count, a.compound);
      if parts.Err? {
        return Err;
      }
      r := Ok(Arg(f.value.name, f.value.typ, f.value.bits, parts.value));
      if Unlimited(room, |data|) {
        MakeArg(known, data, p0, p1, pos, f.value, r.value);
      }
    }

    /** `count` arguments one after the other. */
    method ParseArgs(count: nat, ghost args: seq<Arg>) returns (r: Result<seq<Arg>>)
      modifies this
      ensures r.Ok? ==> pos >= old(pos) && |r.value| == count
      ensures |args| == count && ArgsOk(known, args) && At(data, old(pos), ArgsBytes(args)) && WholeArgs(room, old(pos), args) ==>
                r == Ok(args) && pos == old(pos) + |ArgsBytes(args)|
      ensures Unlimited(room, |data|) && r.Ok? && old(pos) <= |data| ==> ArgsAre(known, data, old(pos), pos, r.value)
      decreases if pos <= |data| then |data| - pos else 0, 1, count
    {
      hide At, ArgBytes, WholeArg, ArgOk, Unlimited, ArgIs, ArgsAre;
      ghost var p0 := pos;
      if count == 0 {
        NoArgs(known, data, pos);
        return Ok([]);
      }
      ghost var head, tail := if args == [] then Arg([], [], 0, []) else args[0], if args == [] then [] else args[1..];
      if args != [] && At(data, pos, ArgsBytes(args)) {
        AtSplit(data, pos, ArgBytes(head), ArgsBytes(tail));
        assert args == [head] + tail;
      }
      var first := ParseArg(head);
      if first.Err? {
        return Err;
      }
      ghost var p1 := pos;
      if Unlimited(room, |data|) {
        ArgEnds(known, data, p0, p1, first.value);
      }
      var rest := ParseArgs(count - 1, tail);
      if rest.Err? {
        return Err;
      }
      if Unlimited(room, |data|) {
        MoreArgs(known, data, p0, p1, pos, first.value, rest.value);
      }
      return Ok([first.value] + rest.value);
    }
  }

  function Zeros(n: nat): (z: seq<Byte>)
    ensures |z| == n
  {
    seq(n, i => 0 as Byte)
  }

  function NumberAt(data: seq<Byte>, pos: nat): (n: nat)
    requires pos + 4 <= |data|
  {
    Number(data[pos], data[pos + 1], data[pos + 2], data[pos + 3])
  }

  lemma NumberReadBack(data: seq<Byte>, pos: nat, n: nat)
    requires n < WORD && At(data, pos, U32(n))
    ensures NumberAt(data, pos) == n
  {
    hide U32;
    U32Number(n);
    assert forall i :: 0 <= i < 4 ==> U32(n)[i] == data[pos..pos + 4][i] == data[pos + i];
  }

  lemma NumberWritten(data: seq<Byte>, pos: nat)
    requires pos + 4 <= |data|
    ensures NumberAt(data, pos) < WORD && At(data, pos, U32(NumberAt(data, pos)))
  {
    var a, b, c, d := data[pos], data[pos + 1], data[pos + 2], data[pos + 3];
    Digits(a, b, c, d);
    assert data[pos..pos + 4] == [a, b, c, d];
  }

  lemma Digits(a: Byte, b: Byte, c: Byte, d: Byte)
    ensures U32(Number(a, b, c, d)) == [a, b, c, d]
  {
    var n := Number(a, b, c, d);
    var q1, q2 := a * 0x10000 + b * 0x100 + c, a * 0x100 + b;
    DivModUnique(n, 256, q1, d);
    DivModUnique(q1, 256, q2, c);
    DivModUnique(q2, 256, a, b);
  }

  /** Every read delivers all that is asked for and there. */
  ghost predicate Unlimited(room: Room, size: nat) {
    forall p: nat :: room(p) >= size
  }

  /** Between two positions there is exactly this string, or argument. */
  predicate StringIs(data: seq<Byte>, pos: nat, end: nat, s: seq<Byte>) {
    |s| < WORD && At(data, pos, StringBytes(s)) && end == pos + |StringBytes(s)|
  }

  predicate ArgIs(known: seq<Byte> -> bool, data: seq<Byte>, pos: nat, end: nat, a: Arg) {
    ArgOk(known, a) && At(data, pos, ArgBytes(a)) && end == pos + |ArgBytes(a)|
  }

  predicate ArgsAre(known: seq<Byte> -> bool, data: seq<Byte>, pos: nat, end: nat, args: seq<Arg>) {
    ArgsOk(known, args) && At(data, pos, ArgsBytes(args)) && end == pos + |ArgsBytes(args)|
  }

  /** The string that parseString returns, and where it leaves the reader. */
  function StringRead(data: seq<Byte>, room: Room, pos: nat): (Result<seq<Byte>>, nat) {
    if pos + 4 > |data| then (Err, pos)
    else if NumberAt(data, pos) == 0 then (Ok([]), pos + 4)
    else if pos + 4 == |data| then (Err, pos + 4)
    else
      var n := NumberAt(data, pos);
      var k := Min(n, Min(room(pos + 4), |data| - (pos + 4)));
      (Ok(data[pos + 4..pos + 4 + k] + Zeros(n - k)), pos + 4 + k)
  }

  /** A string written by marshalString is read back, with the reader behind
      it, exactly when one Read call delivers all of it. */
  lemma StringReadBack(data: seq<Byte>, room: Room, pos: nat, s: seq<Byte>)
    requires |s| < WORD && At(data, pos, StringBytes(s))
    ensures StringRead(data, room, pos) == (Ok(s), pos + |StringBytes(s)|) <==> Whole(room, pos + 4, |s|)
  {
    hide U32, StringBytes, NumberAt;
    LayStringOut(data, pos, s);
    NumberReadBack(data, pos, |s|);
    if 0 < |s| <= room(pos + 4) {
      ReadWhole(data, pos + 4, s, |s|, data[pos + 4..pos + 4 + |s|] + Zeros(0));
    }
  }

  /** What one read gets of a string of `n` bytes: the first `k` of them, and zeros for
      the rest; the reader stands behind what was read. */
  lemma StringReadAt(data: seq<Byte>, room: Room, pos: nat)
    requires StringRead(data, room, pos).0.Ok?
    ensures pos + 4 <= |data|
    ensures var (r, end) := StringRead(data, room, pos);
            var n, k := NumberAt(data, pos), end - pos - 4;
            && |r.value| == n && 0 <= k <= n && end <= |data|
            && (k < n ==> k == room(pos + 4) || end == |data|)
            && forall j :: 0 <= j < n ==> r.value[j] == if j < k then data[pos + 4 + j] else 0
  {
    hide NumberAt;
  }

  /** With unlimited reads only the end of the file cuts a string short. */
  lemma StringReadMeans(data: seq<Byte>, room: Room, pos: nat)
    requires Unlimited(room, |data|)
    ensures var (r, end) := StringRead(data, room, pos); r.Ok? && end < |data| ==> StringIs(data, pos, end, r.value)
  {
    hide U32, NumberAt;
    var (r, end) := StringRead(data, room, pos);
    if r.Ok? && end < |data| {
      NumberWritten(data, pos);
      var n := NumberAt(data, pos);
      assert room(pos + 4) >= |data|;
      assert r.value == data[pos + 4..pos + 4 + n] && end == pos + 4 + n;
      AtSplit(data, pos, U32(n), r.value);
    }
  }

  predicate FieldsAre(known: seq<Byte> -> bool, data: seq<Byte>, pos: nat, end: nat, f: Fields) {
    var p := pos + |StringBytes(f.name)|;
    var q := p + |StringBytes(f.typ)|;
    && StringIs(data, pos, p, f.name) && StringIs(data, p, q, f.typ) && known(f.typ) && IsSize(f.bits) && f.count < WORD
    && At(data, q, U32(f.bits)) && At(data, q + 4, U32(f.count)) && end == q + 8
  }

  lemma MakeFields(known: seq<Byte> -> bool, data: seq<Byte>, p0: nat, p1: nat, p2: nat, f: Fields)
    requires StringIs(data, p0, p1, f.name) && StringIs(data, p1, p2, f.typ) && known(f.typ) && IsSize(f.bits) && f.count < WORD
    requires At(data, p2, U32(f.bits)) && At(data, p2 + 4, U32(f.count))
    ensures FieldsAre(known, data, p0, p2 + 8, f)
  {
    hide U32, At, StringBytes;
  }

  /** What the reader will find where an argument is laid out. */
  lemma FieldsExpected(known: seq<Byte> -> bool, room: Room, data: seq<Byte>, p: nat, a: Arg)
    requires ArgOk(known, a) && ArgLaidOut(data, p, a) && WholeArg(room, p, a)
    ensures |a.name| < WORD && At(data, p, StringBytes(a.name)) && Whole(room, p + 4, |a.name|)
    ensures var q := p + |StringBytes(a.name)|; |a.typ| < WORD && At(data, q, StringBytes(a.typ)) && Whole(room, q + 4, |a.typ|)
    ensures var s := p + |StringBytes(a.name)| + |StringBytes(a.typ)|;
            IsSize(a.bits) && |a.compound| < WORD && known(a.typ) && At(data, s, U32(a.bits)) && At(data, s + 4, U32(|a.compound|))
  {
    hide U32, At, Whole, ArgsBytes, ArgsOk, WholeArgs;
  }

  lemma MakeArg(known: seq<Byte> -> bool, data: seq<Byte>, p0: nat, p1: nat, end: nat, f: Fields, a: Arg)
    requires FieldsAre(known, data, p0, p1, f) && ArgsAre(known, data, p1, end, a.compound)
    requires a.name == f.name && a.typ == f.typ && a.bits == f.bits && |a.compound| == f.count
    ensures ArgIs(known, data, p0, end, a)
  {
    hide U32, StringBytes, ArgsBytes, At;
    var p := p0 + |StringBytes(f.name)|;
    var q := p + |StringBytes(f.typ)|;
    AtSplit(data, q + 4, U32(|a.compound|), ArgsBytes(a.compound));
    AtSplit(data, q, U32(a.bits), U32(|a.compound|) + ArgsBytes(a.compound));
    AtSplit(data, p, StringBytes(a.typ), U32(a.bits) + (U32(|a.compound|) + ArgsBytes(a.compound)));
    AtSplit(data, p0, StringBytes(a.name), StringBytes(a.typ) + (U32(a.bits) + (U32(|a.compound|) + ArgsBytes(a.compound))));
  }

  lemma ArgEnds(known: seq<Byte> -> bool, data: seq<Byte>, pos: nat, end: nat, a: Arg)
    requires ArgIs(known, data, pos, end, a)
    ensures end <= |data|
  {
  }

  lemma NumberEnds(data: seq<Byte>, pos: nat, n: nat)
    requires At(data, pos, U32(n))
    ensures pos + 4 <= |data|
  {
  }

  lemma NoArgs(known: seq<Byte> -> bool, data: seq<Byte>, pos: nat)
    ensures pos <= |data| ==> ArgsAre(known, data, pos, pos, [])
  {
  }

  lemma MoreArgs(known: seq<Byte> -> bool, data: seq<Byte>, p0: nat, p1: nat, end: nat, first: Arg, rest: seq<Arg>)
    requires ArgIs(known, data, p0, p1, first) && ArgsAre(known, data, p1, end, rest)
    ensures ArgsAre(known, data, p0, end, [first] + rest)
  {
    hide At, ArgBytes, ArgOk;
    var all := [first] + rest;
    assert all[0] == first && all[1..] == rest;
    AtSplit(data, p0, ArgBytes(first), ArgsBytes(rest));
  }

  lemma LayStringOut(data: seq<Byte>, pos: nat, s: seq<Byte>)
    requires At(data, pos, StringBytes(s))
    ensures At(data, pos, U32(|s|)) && At(data, pos + 4, s)
  {
    AtSplit(data, pos, U32(|s|), s);
  }

  lemma NoRoom(data: seq<Byte>, pos: nat, s: seq<Byte>)
    requires pos >= |data|
    ensures At(data, pos, s) ==> s == []
  {
  }

  lemma ReadWhole(data: seq<Byte>, pos: nat, s: seq<Byte>, k: nat, r: seq<Byte>)
    requires At(data, pos, s) && k == |s| && r == data[pos..pos + k] + Zeros(0)
    ensures r == s
  {
  }

  /** The fields of an argument one after the other. */
  predicate ArgLaidOut(data: seq<Byte>, pos: nat, a: Arg) {
    var p := pos + |StringBytes(a.name)|;
    var q := p + |StringBytes(a.typ)|;
    && At(data, pos, StringBytes(a.name)) && At(data, p, StringBytes(a.typ))
    && At(data, q, U32(a.bits)) && At(data, q + 4, U32(|a.compound|)) && At(data, q + 8, ArgsBytes(a.compound))
  }

  lemma LayArgOut(data: seq<Byte>, pos: nat, a: Arg)
    requires At(data, pos, ArgBytes(a))
    ensures ArgLaidOut(data, pos, a)
    ensures |ArgBytes(a)| == |StringBytes(a.name)| + |StringBytes(a.typ)| + 8 + |ArgsBytes(a.compound)|
  {
    hide U32, StringBytes, ArgsBytes, At;
    var p := pos + |StringBytes(a.name)|;
    var q := p + |StringBytes(a.typ)|;
    AtSplit(data, pos, StringBytes(a.name), StringBytes(a.typ) + (U32(a.bits) + (U32(|a.compound|) + ArgsBytes(a.compound))));
    AtSplit(data, p, StringBytes(a.typ), U32(a.bits) + (U32(|a.compound|) + ArgsBytes(a.compound)));
    AtSplit(data, q, U32(a.bits), U32(|a.compound|) + ArgsBytes(a.compound));
    AtSplit(data, q + 4, U32(|a.compound|), ArgsBytes(a.compound));
  }

  // ----- Gates -----

  /** The gate is of a known type and reads only wires that have been seen. */
  predicate Fits(seen: seq<bool>, g: Gate) {
    && !g.op.Other? && g.input0 < |seen| && seen[g.input0] && g.output < |seen|
    && if g.op == INV then g.input1 == 0 else g.input1 < |seen| && seen[g.input1]
  }

  predicate InWords(g: Gate) {
    g.input0 < WORD && g.input1 < WORD && g.output < WORD
  }

  function ByteOp(b: Byte): Op {
    if b == 0 then XOR else if b == 1 then XNOR else if b == 2 then AND else if b == 3 then OR else if b == 4 then INV else Other(b)
  }

  /** The wires seen after the gates: the first `k`, and the outputs. */
  function SeenAfter(gates: seq<Gate>, k: nat, n: nat): (seen: seq<bool>)
    ensures |seen| == n
  {
    if gates == [] then seq(n, i => i < k)
    else
      var g := gates[|gates| - 1];
      var init := SeenAfter(gates[..|gates| - 1], k, n);
      if g.output < n then init[g.output := true] else init
  }

  lemma {:induction false} SeenIsAssigned(gates: seq<Gate>, k: nat, n: nat, w: nat)
    requires w < n
    ensures SeenAfter(gates, k, n)[w] <==> Assigned(gates, k, w)
  {
    if gates != [] {
      var init, g := gates[..|gates| - 1], gates[|gates| - 1];
      SeenIsAssigned(init, k, n, w);
      assert gates == init + [g];
    }
  }

  /** Every gate fits the wires seen before it. */
  ghost predicate AllFit(gates: seq<Gate>, k: nat, n: nat) {
    forall x :: 0 <= x < |gates| ==> FitsAt(gates, k, n, x)
  }

  predicate FitsAt(gates: seq<Gate>, k: nat, n: nat, x: nat)
    requires x < |gates|
  {
    Fits(SeenAfter(gates[..x], k, n), gates[x])
  }

  lemma FitIsInOrder(gates: seq<Gate>, k: nat, n: nat)
    requires AllFit(gates, k, n)
    ensures InOrder(gates, k) && ValidOps(gates) && (n > 0 ==> WiresBelow(gates, n))
  {
    hide SeenAfter, Assigned;
    forall x | 0 <= x < |gates|
      ensures Assigned(gates[..x], k, gates[x].input0) && (gates[x].op != INV ==> Assigned(gates[..x], k, gates[x].input1))
    {
      assert FitsAt(gates, k, n, x);
      SeenIsAssigned(gates[..x], k, n, gates[x].input0);
      if gates[x].op != INV {
        SeenIsAssigned(gates[..x], k, n, gates[x].input1);
      }
    }
    forall g | g in gates ensures !g.op.Other? && (n > 0 ==> g.input0 < n && g.input1 < n && g.output < n) {
      var x :| 0 <= x < |gates| && gates[x] == g;
      assert FitsAt(gates, k, n, x);
    }
  }

  lemma GateLaidOut(data: seq<Byte>, pos: nat, g: Gate)
    requires At(data, pos, GateBytes(g))
    ensures pos < |data| && data[pos] == OpByte(g.op) && At(data, pos + 1, U32(g.input0))
    ensures if g.op == INV then At(data, pos + 5, U32(g.output)) else At(data, pos + 5, U32(g.input1)) && At(data, pos + 9, U32(g.output))
    ensures |GateBytes(g)| == if g.op == INV then 9 else 13
  {
    hide U32, At;
    var rest := if g.op == INV then U32(g.output) else U32(g.input1) + U32(g.output);
    AtSplit(data, pos, [OpByte(g.op)], U32(g.input0) + rest);
    AtSplit(data, pos + 1, U32(g.input0), rest);
    if g.op != INV {
      AtSplit(data, pos + 5, U32(g.input1), U32(g.output));
    }
    OneByte(data, pos, OpByte(g.op));
  }

  lemma GateThere(data: seq<Byte>, pos: nat, g: Gate)
    requires pos < |data| && data[pos] == OpByte(g.op) && At(data, pos + 1, U32(g.input0))
    requires if g.op == INV then At(data, pos + 5, U32(g.output)) else At(data, pos + 5, U32(g.input1)) && At(data, pos + 9, U32(g.output))
    ensures At(data, pos, GateBytes(g)) && |GateBytes(g)| == if g.op == INV then 9 else 13
  {
    hide U32, At;
    var rest := if g.op == INV then U32(g.output) else U32(g.input1) + U32(g.output);
    if g.op != INV {
      AtSplit(data, pos + 5, U32(g.input1), U32(g.output));
    }
    AtSplit(data, pos + 1, U32(g.input0), rest);
    ByteThere(data, pos, OpByte(g.op));
    AtSplit(data, pos, [OpByte(g.op)], U32(g.input0) + rest);
  }

  lemma ByteThere(data: seq<Byte>, pos: nat, b: Byte)
    requires pos < |data| && data[pos] == b
    ensures At(data, pos, [b])
  {
    assert data[pos..pos + 1] == [b];
  }

  lemma {:induction false} GatesSnoc(gates: seq<Gate>, g: Gate)
    ensures GatesBytes(gates + [g]) == GatesBytes(gates) + GateBytes(g)
  {
    hide GateBytes;
    if gates == [] {
      assert [g][1..] == [];
    } else {
      GatesSnoc(gates[1..], g);
      assert (gates + [g])[0] == gates[0] && (gates + [g])[1..] == gates[1..] + [g];
    }
  }

  lemma GateAppended(data: seq<Byte>, p0: nat, pos: nat, gates: seq<Gate>, g: Gate)
    requires At(data, p0, GatesBytes(gates)) && pos == p0 + |GatesBytes(gates)| && At(data, pos, GateBytes(g))
    ensures At(data, p0, GatesBytes(gates + [g])) && pos + |GateBytes(g)| == p0 + |GatesBytes(gates + [g])|
  {
    hide At, GateBytes, GatesBytes;
    GatesSnoc(gates, g);
    AtSplit(data, p0, GatesBytes(gates), GateBytes(g));
  }

  lemma OneByte(data: seq<Byte>, pos: nat, b: Byte)
    requires At(data, pos, [b])
    ensures pos < |data| && data[pos] == b
  {
    assert data[pos..pos + 1][0] == data[pos];
  }

  /** One gate: the operation byte has been seen to be there. */
  method ParseGate(r: Reader, seen: array<bool>, ghost want: Gate) returns (res: Result<Gate>)
    requires r.pos < |r.data|
    modifies r, seen
    ensures res.Ok? ==> Fits(old(seen[..]), res.value) && InWords(res.value) && seen[..] == old(seen[..])[res.value.output := true]
    ensures res.Ok? ==> r.pos > old(r.pos)
    ensures At(r.data, old(r.pos), GateBytes(want)) && InWords(want) && Fits(old(seen[..]), want) ==>
              res == Ok(want) && r.pos == old(r.pos) + |GateBytes(want)|
    ensures res.Ok? ==> At(r.data, old(r.pos), GateBytes(res.value)) && r.pos == old(r.pos) + |GateBytes(res.value)|
  {
    hide U32, At, GateBytes;
    ghost var s0 := seen[..];
    if At(r.data, r.pos, GateBytes(want)) {
      GateLaidOut(r.data, r.pos, want);
    }
    var op := ByteOp(r.data[r.pos]);
    r.pos := r.pos + 1;
    if op.Other? {
      return Err;
    }
    var in0 := r.Read32(want.input0);
    var in1 := Ok(0);
    if op != INV {
      in1 := r.Read32(want.input1);
    }
    var out := r.Read32(want.output);
    if in0.Err? || in1.Err? || out.Err? {
      return Err;
    }
    if in0.value >= seen.Length || !seen[in0.value] {
      return Err;
    }
    if op != INV && (in1.value >= seen.Length || !seen[in1.value]) {
      return Err;
    }
    if out.value >= seen.Length {
      return Err;
    }
    seen[out.value] := true;
    assert seen[..] == s0[out.value := true];
    GateThere(r.data, old(r.pos), Gate(op, in0.value, in1.value, out.value));
    return Ok(Gate(op, in0.value, in1.value, out.value));
  }

  /** What the reader expects the rest of the file to be. */
  predicate Expects(data: seq<Byte>, pos: nat, want: seq<Gate>, x: nat)
    requires x <= |want|
  {
    At(data, pos, GatesBytes(want[x..])) && pos + |GatesBytes(want[x..])| == |data|
  }

  lemma ExpectOne(data: seq<Byte>, pos: nat, want: seq<Gate>, x: nat)
    requires x < |want| && Expects(data, pos, want, x)
    ensures At(data, pos, GateBytes(want[x])) && Expects(data, pos + |GateBytes(want[x])|, want, x + 1) && pos < |data|
  {
    hide At, GateBytes;
    assert want[x..][0] == want[x] && want[x..][1..] == want[x + 1..];
    AtSplit(data, pos, GateBytes(want[x]), GatesBytes(want[x + 1..]));
    GateLaidOut(data, pos, want[x]);
  }

  /** The gate loop: until the end of the file.  More gates than announced make
      the source index out of range; that counts as an error here. */
  method ParseGates(r: Reader, seen: array<bool>, numGates: nat, ghost k: nat, ghost want: seq<Gate>) returns (res: Result<seq<Gate>>)
    requires seen[..] == SeenAfter([], k, seen.Length)
    modifies r, seen
    ensures res.Ok? ==> |res.value| == numGates && AllFit(res.value, k, seen.Length) && seen[..] == SeenAfter(res.value, k, seen.Length)
    ensures Expects(r.data, old(r.pos), want, 0) && |want| == numGates && AllFit(want, k, seen.Length) && (forall g :: g in want ==> InWords(g)) ==>
              res == Ok(want)
    ensures res.Ok? && old(r.pos) <= |r.data| ==>
              Expects(r.data, old(r.pos), res.value, 0) && forall g :: g in res.value ==> InWords(g) && OneInput(g)
  {
    hide At, GatesBytes, GateBytes, Expects, Fits, InWords, OneInput;
    ghost var p0 := r.pos;
    if p0 <= |r.data| {
      NoGates(r.data, p0);
    }
    var gates: seq<Gate> := [];
    ghost var sure := Expects(r.data, r.pos, want, 0) && |want| == numGates && AllFit(want, k, seen.Length) && forall g :: g in want ==> InWords(g);
    while r.pos < |r.data|
      invariant |gates| <= numGates && AllFit(gates, k, seen.Length) && seen[..] == SeenAfter(gates, k, seen.Length)
      invariant sure ==> |gates| <= |want| == numGates && gates == want[..|gates|] && Expects(r.data, r.pos, want, |gates|)
      invariant p0 <= |r.data| ==> At(r.data, p0, GatesBytes(gates)) && r.pos == p0 + |GatesBytes(gates)|
      invariant forall g :: g in gates ==> InWords(g) && OneInput(g)
      decreases |r.data| - r.pos
    {
      ghost var x := |gates|;
      ghost var next := if x < |want| then want[x] else Gate(XOR, 0, 0, 0);
      if sure {
        MoreExpected(r.data, r.pos, want, x);
        ExpectOne(r.data, r.pos, want, x);
        assert FitsAt(want, k, seen.Length, x) && want[x] in want;
      }
      ghost var pos := r.pos;
      ghost var s0 := seen[..];
      var g := ParseGate(r, seen, next);
      if g.Err? || |gates| >= numGates {
        return Err;
      }
      if p0 <= |r.data| {
        GateAppended(r.data, p0, pos, gates, g.value);
      }
      FitsOneInput(s0, g.value);
      FitSnoc(gates, g.value, k, seen.Length);
      gates := gates + [g.value];
    }
    if sure {
      NoneExpected(r.data, r.pos, want, |gates|);
      assert want[..|want|] == want;
    }
    if p0 <= |r.data| {
      GatesThere(r.data, p0, r.pos, gates);
    }
    return if |gates| == numGates then Ok(gates) else Err;
  }

  lemma NoGates(data: seq<Byte>, pos: nat)
    requires pos <= |data|
    ensures At(data, pos, GatesBytes([])) && GatesBytes([]) == []
  {
  }

  lemma FitsOneInput(seen: seq<bool>, g: Gate)
    requires Fits(seen, g)
    ensures OneInput(g)
  {
  }

  lemma GatesThere(data: seq<Byte>, p0: nat, pos: nat, gates: seq<Gate>)
    requires At(data, p0, GatesBytes(gates)) && pos == p0 + |GatesBytes(gates)| && pos >= |data|
    ensures Expects(data, p0, gates, 0)
  {
    assert gates[0..] == gates;
  }

  lemma MoreExpected(data: seq<Byte>, pos: nat, want: seq<Gate>, x: nat)
    requires x <= |want| && Expects(data, pos, want, x) && pos < |data|
    ensures x < |want|
  {
    assert want[|want|..] == [];
  }

  lemma NoneExpected(data: seq<Byte>, pos: nat, want: seq<Gate>, x: nat)
    requires x <= |want| && Expects(data, pos, want, x) && pos >= |data|
    ensures x == |want|
  {
    if x < |want| {
      ExpectOne(data, pos, want, x);
    }
  }

  lemma FitSnoc(gates: seq<Gate>, g: Gate, k: nat, n: nat)
    requires AllFit(gates, k, n) && Fits(SeenAfter(gates, k, n), g)
    ensures AllFit(gates + [g], k, n) && SeenAfter(gates + [g], k, n) == SeenAfter(gates, k, n)[g.output := true]
  {
    hide SeenAfter;
    var all := gates + [g];
    assert all[..|gates|] == gates;
    SeenSnoc(gates, g, k, n);
    forall x | 0 <= x < |all| ensures FitsAt(all, k, n, x) {
      if x < |gates| {
        assert all[..x] == gates[..x] && FitsAt(gates, k, n, x);
      }
    }
  }

  lemma SeenSnoc(gates: seq<Gate>, g: Gate, k: nat, n: nat)
    requires g.output < n
    ensures SeenAfter(gates + [g], k, n) == SeenAfter(gates, k, n)[g.output := true]
  {
    assert (gates + [g])[..|gates|] == gates;
  }

  // ----- The whole file -----

  /** The sum of the sizes, with their signs. */
  function ArgBits(args: seq<Arg>): int {
    if args == [] then 0 else args[0].bits + ArgBits(args[1..])
  }

  /** How many wires that marks. */
  function InputWires(args: seq<Arg>): nat {
    Count(ArgBits(args))
  }

  function Count(n: int): nat {
    if n > 0 then n else 0
  }

  ghost predicate AllAssigned(gates: seq<Gate>, k: nat, n: nat) {
    forall w: nat :: w < n ==> Assigned(gates, k, w)
  }

  /** The gates are of known types and in topological order over `n` wires,
      the first `k` of them inputs, and every wire is assigned. */
  ghost predicate SoundGates(gates: seq<Gate>, k: nat, n: nat) {
    ValidOps(gates) && InOrder(gates, k) && AllAssigned(gates, k, n) && (gates != [] ==> WiresBelow(gates, n))
  }

  /** What every accepted circuit is. */
  ghost predicate Sound(c: File) {
    InputWires(c.inputs) <= c.numWires && SoundGates(c.gates, InputWires(c.inputs), c.numWires)
  }

  /** Inverters have no second input; the file does not hold one. */
  predicate OneInput(g: Gate) {
    g.op == INV ==> g.input1 == 0
  }

  /** Every number fits its 32-bit field and every type is known. */
  predicate Storable(known: seq<Byte> -> bool, c: File) {
    && c.numWires < WORD && |c.gates| < WORD && |c.inputs| < WORD && |c.outputs| < WORD
    && ArgsOk(known, c.inputs) && ArgsOk(known, c.outputs)
    && forall g :: g in c.gates ==> InWords(g) && OneInput(g)
  }

  predicate WholeFile(room: Room, c: File) {
    WholeArgs(room, 20, c.inputs) && WholeArgs(room, 20 + |ArgsBytes(c.inputs)|, c.outputs)
  }

  lemma SoundFits(gates: seq<Gate>, k: nat, n: nat)
    requires SoundGates(gates, k, n) && forall g :: g in gates ==> OneInput(g)
    ensures AllFit(gates, k, n)
  {
    hide SeenAfter, Assigned;
    forall x | 0 <= x < |gates| ensures FitsAt(gates, k, n, x) {
      var g := gates[x];
      assert g in gates;
      SeenIsAssigned(gates[..x], k, n, g.input0);
      if g.op != INV {
        SeenIsAssigned(gates[..x], k, n, g.input1);
      }
    }
  }

  /** The bytes of the file, whatever its first four are. */
  ghost predicate Holds(data: seq<Byte>, c: File) {
    |data| >= 4 && data[4..] == FileBytes(c)[4..]
  }

  /** The parts of a file after the magic number, one after the other. */
  ghost predicate FileLaidOut(data: seq<Byte>, c: File) {
    var p := 20 + |ArgsBytes(c.inputs)|;
    && At(data, 4, U32(|c.gates|)) && At(data, 8, U32(c.numWires))
    && At(data, 12, U32(|c.inputs|)) && At(data, 16, U32(|c.outputs|))
    && At(data, 20, ArgsBytes(c.inputs)) && At(data, p, ArgsBytes(c.outputs))
    && Expects(data, p + |ArgsBytes(c.outputs)|, c.gates, 0)
  }

  lemma HoldsLaidOut(data: seq<Byte>, c: File)
    ensures Holds(data, c) <==> FileLaidOut(data, c)
  {
    hide U32, ArgsBytes, GatesBytes, At;
    assert c.gates[0..] == c.gates;
    var p := 20 + |ArgsBytes(c.inputs)|;
    var gates := GatesBytes(c.gates);
    var outs := ArgsBytes(c.outputs) + gates;
    var ins := ArgsBytes(c.inputs) + outs;
    var rest := U32(|c.gates|) + (U32(c.numWires) + (U32(|c.inputs|) + (U32(|c.outputs|) + ins)));
    assert FileBytes(c) == U32(MAGIC) + rest;
    assert FileBytes(c)[4..] == rest;
    RestIsAt(data, rest);
    AtSplit(data, 4, U32(|c.gates|), U32(c.numWires) + (U32(|c.inputs|) + (U32(|c.outputs|) + ins)));
    AtSplit(data, 8, U32(c.numWires), U32(|c.inputs|) + (U32(|c.outputs|) + ins));
    AtSplit(data, 12, U32(|c.inputs|), U32(|c.outputs|) + ins);
    AtSplit(data, 16, U32(|c.outputs|), ins);
    AtSplit(data, 20, ArgsBytes(c.inputs), outs);
    AtSplit(data, p, ArgsBytes(c.outputs), gates);
  }

  lemma RestIsAt(data: seq<Byte>, rest: seq<Byte>)
    ensures |data| >= 4 && data[4..] == rest <==> At(data, 4, rest) && |data| == 4 + |rest|
  {
    if At(data, 4, rest) && |data| == 4 + |rest| {
      assert data[4..] == data[4..4 + |rest|];
    }
    if |data| >= 4 && data[4..] == rest {
      assert data[4..4 + |rest|] == rest;
    }
  }

  /** A fresh array with the input wires marked, when there are that many; a
      negative sum marks none. */
  method MarkInputs(inputWires: int, n: nat) returns (r: Result<array<bool>>)
    ensures r.Ok? <==> inputWires <= n
    ensures r.Ok? ==> fresh(r.value) && r.value.Length == n && r.value[..] == SeenAfter([], Count(inputWires), n)
  {
    var seen := new bool[n](_ => false);
    var i := 0;
    while i < inputWires
      invariant 0 <= i <= Count(inputWires) && i <= n && seen[..] == SeenAfter([], i, n)
    {
      if i >= n {
        return Err;
      }
      seen[i] := true;
      i := i + 1;
    }
    return Ok(seen);
  }

  method AllSeen(seen: array<bool>) returns (ok: bool)
    ensures ok <==> forall w :: 0 <= w < seen.Length ==> seen[w]
  {
    for i := 0 to seen.Length
      invariant forall w :: 0 <= w < i ==> seen[w]
    {
      if !seen[i] {
        return false;
      }
    }
    return true;
  }

  datatype Header = Header(numGates: nat, numWires: nat, numInputs: nat, numOutputs: nat)

  /** The header.  The magic number is read and not compared. */
  method ParseHeader(r: Reader, ghost want: File) returns (res: Result<Header>)
    requires r.pos == 0
    modifies r
    ensures FileLaidOut(r.data, want) && Storable(r.known, want) ==>
              res == Ok(Header(|want.gates|, want.numWires, |want.inputs|, |want.outputs|)) && r.pos == 20
    ensures res.Ok? ==> HeaderIs(r.data, res.value) && r.pos == 20
  {
    hide U32, At, ArgsBytes, ArgsOk, Expects, InWords;
    var magic := r.Read32(MAGIC);
    var numGates := r.Read32(|want.gates|);
    var numWires := r.Read32(want.numWires);
    var numInputs := r.Read32(|want.inputs|);
    var numOutputs := r.Read32(|want.outputs|);
    if magic.Err? || numGates.Err? || numWires.Err? || numInputs.Err? || numOutputs.Err? {
      if FileLaidOut(r.data, want) {
        NumberEnds(r.data, 16, |want.outputs|);
      }
      return Err;
    }
    NumberEnds(r.data, 16, numOutputs.value);
    return Ok(Header(numGates.value, numWires.value, numInputs.value, numOutputs.value));
  }

  predicate HeaderIs(data: seq<Byte>, h: Header) {
    && |data| >= 20 && h.numGates < WORD && h.numWires < WORD && h.numInputs < WORD && h.numOutputs < WORD
    && At(data, 4, U32(h.numGates)) && At(data, 8, U32(h.numWires)) && At(data, 12, U32(h.numInputs)) && At(data, 16, U32(h.numOutputs))
  }

  /** The gates, after the arguments of a circuit whose input sizes add up to
      `inputWires`. */
  method ParseBody(r: Reader, h: Header, inputWires: int, ghost want: seq<Gate>) returns (res: Result<seq<Gate>>)
    modifies r
    ensures var k := Count(inputWires);
            res.Ok? ==> k <= h.numWires && SoundGates(res.value, k, h.numWires)
    ensures var k := Count(inputWires);
            (forall g :: g in want ==> InWords(g) && OneInput(g)) && k <= h.numWires && SoundGates(want, k, h.numWires) ==>
              Expects(r.data, old(r.pos), want, 0) && |want| == h.numGates ==> res == Ok(want)
    ensures res.Ok? && old(r.pos) <= |r.data| ==>
              |res.value| == h.numGates && Expects(r.data, old(r.pos), res.value, 0) && forall g :: g in res.value ==> InWords(g) && OneInput(g)
  {
    hide SeenAfter, AllFit, Expects, InWords, OneInput, InOrder, Assigned;
    ghost var k := Count(inputWires);
    if SoundGates(want, k, h.numWires) && forall g :: g in want ==> OneInput(g) {
      SoundFits(want, k, h.numWires);
    }
    var marked := MarkInputs(inputWires, h.numWires);
    if marked.Err? {
      return Err;
    }
    var gates := ParseGates(r, marked.value, h.numGates, k, want);
    if gates.Err? {
      return Err;
    }
    var all := AllSeen(marked.value);
    SeenDecides(gates.value, k, h.numWires, marked.value[..]);
    return if all then gates else Err;
  }

  /** ParseMPCLC.  An accepted circuit is sound; and the bytes of a sound circuit
      give that circuit again, when no string is cut by a short read.  With
      unlimited reads only such bytes are accepted. */
  method ParseMPCLC(data: seq<Byte>, room: Room, known: seq<Byte> -> bool, ghost want: File) returns (res: Result<File>)
    ensures res.Ok? ==> Sound(res.value)
    ensures Holds(data, want) && Storable(known, want) && WholeFile(room, want) && Sound(want) ==> res == Ok(want)
    ensures Unlimited(room, |data|) && res.Ok? ==> Holds(data, res.value) && Storable(known, res.value)
  {
    hide U32, At, ArgsBytes, FileBytes, ArgsOk, WholeArgs, Expects, ArgBits, InWords, OneInput, SoundGates, Holds, FileLaidOut, HeaderIs, ArgsAre, Unlimited;
    HoldsLaidOut(data, want);
    if FileLaidOut(data, want) {
      OpenFile(data, want);
    }
    var r := new Reader(data, room, known);
    var h := ParseHeader(r, want);
    if h.Err? {
      return Err;
    }
    HeaderEnds(data, h.value);
    var inputs := r.ParseArgs(h.value.numInputs, want.inputs);
    if inputs.Err? {
      return Err;
    }
    ghost var p := r.pos;
    if Unlimited(room, |data|) {
      ArgsEnd(known, data, 20, p, inputs.value);
    }
    var outputs := r.ParseArgs(h.value.numOutputs, want.outputs);
    if outputs.Err? {
      return Err;
    }
    ghost var q := r.pos;
    if Unlimited(room, |data|) {
      ArgsEnd(known, data, p, q, outputs.value);
    }
    var gates := ParseBody(r, h.value, ArgBits(inputs.value), want.gates);
    if gates.Err? {
      return Err;
    }
    res := Ok(File(h.value.numWires, inputs.value, outputs.value, gates.value));
    if Unlimited(room, |data|) {
      MakeFile(known, data, h.value, p, q, res.value);
      HoldsLaidOut(data, res.value);
    }
  }

  lemma OpenFile(data: seq<Byte>, c: File)
    requires FileLaidOut(data, c)
    ensures var p := 20 + |ArgsBytes(c.inputs)|;
            At(data, 20, ArgsBytes(c.inputs)) && At(data, p, ArgsBytes(c.outputs)) && Expects(data, p + |ArgsBytes(c.outputs)|, c.gates, 0)
  {
  }

  lemma HeaderEnds(data: seq<Byte>, h: Header)
    requires HeaderIs(data, h)
    ensures |data| >= 20
  {
  }

  lemma ArgsEnd(known: seq<Byte> -> bool, data: seq<Byte>, pos: nat, end: nat, args: seq<Arg>)
    requires ArgsAre(known, data, pos, end, args)
    ensures end <= |data|
  {
  }

  lemma MakeFile(known: seq<Byte> -> bool, data: seq<Byte>, h: Header, p: nat, q: nat, c: File)
    requires HeaderIs(data, h) && h == Header(|c.gates|, c.numWires, |c.inputs|, |c.outputs|)
    requires ArgsAre(known, data, 20, p, c.inputs) && ArgsAre(known, data, p, q, c.outputs)
    requires Expects(data, q, c.gates, 0) && forall g :: g in c.gates ==> InWords(g) && OneInput(g)
    ensures FileLaidOut(data, c) && Storable(known, c)
  {
    hide U32, At, ArgsBytes, ArgsOk, Expects, InWords, OneInput;
  }

  /** Where the bytes of a file stand and reads are unlimited, no string is cut. */
  lemma NothingCut(data: seq<Byte>, room: Room, c: File)
    requires Unlimited(room, |data|) && Holds(data, c)
    ensures WholeFile(room, c)
  {
    hide Unlimited, Holds, FileLaidOut;
    HoldsLaidOut(data, c);
    OpenFile(data, c);
    ArgsUncut(data, room, 20, c.inputs);
    ArgsUncut(data, room, 20 + |ArgsBytes(c.inputs)|, c.outputs);
  }

  lemma {:induction false} ArgsUncut(data: seq<Byte>, room: Room, pos: nat, args: seq<Arg>)
    requires Unlimited(room, |data|) && At(data, pos, ArgsBytes(args))
    ensures WholeArgs(room, pos, args)
    decreases args, 1
  {
    hide At, ArgBytes, Unlimited, WholeArg;
    if args != [] {
      AtSplit(data, pos, ArgBytes(args[0]), ArgsBytes(args[1..]));
      ArgUncut(data, room, pos, args[0]);
      ArgsUncut(data, room, pos + |ArgBytes(args[0])|, args[1..]);
    }
  }

  lemma {:induction false} ArgUncut(data: seq<Byte>, room: Room, pos: nat, a: Arg)
    requires Unlimited(room, |data|) && At(data, pos, ArgBytes(a))
    ensures WholeArg(room, pos, a)
    decreases a, 0
  {
    hide U32, ArgsBytes, WholeArgs, ArgBytes;
    LayArgOut(data, pos, a);
    assert room(pos + 4) >= |data| && room(pos + 4 + |a.name| + 4) >= |data|;
    ArgsUncut(data, room, pos + 4 + |a.name| + 4 + |a.typ| + 8, a.compound);
  }

  // ----- Bytes are those of one file only -----

  lemma NumberUnique(data: seq<Byte>, pos: nat, m: nat, n: nat)
    requires m < WORD && n < WORD && At(data, pos, U32(m)) && At(data, pos, U32(n))
    ensures m == n
  {
    hide U32, NumberAt;
    NumberReadBack(data, pos, m);
    NumberReadBack(data, pos, n);
  }

  lemma SizeUnique(data: seq<Byte>, pos: nat, m: int, n: int)
    requires IsSize(m) && IsSize(n) && At(data, pos, U32(m)) && At(data, pos, U32(n))
    ensures m == n
  {
    hide U32, At;
    SameField(FieldOf(m));
    SameField(FieldOf(n));
    NumberUnique(data, pos, FieldOf(m), FieldOf(n));
  }

  lemma StringUnique(data: seq<Byte>, pos: nat, s: seq<Byte>, t: seq<Byte>)
    requires |s| < WORD && |t| < WORD && At(data, pos, StringBytes(s)) && At(data, pos, StringBytes(t))
    ensures s == t
  {
    hide U32;
    LayStringOut(data, pos, s);
    LayStringOut(data, pos, t);
    NumberUnique(data, pos, |s|, |t|);
  }

  lemma {:induction false} ArgUnique(known: seq<Byte> -> bool, data: seq<Byte>, pos: nat, a: Arg, b: Arg)
    requires ArgOk(known, a) && ArgOk(known, b) && At(data, pos, ArgBytes(a)) && At(data, pos, ArgBytes(b))
    ensures a == b
    decreases a, 0
  {
    hide U32, At, StringBytes, ArgBytes, ArgsBytes, ArgsOk;
    LayArgOut(data, pos, a);
    LayArgOut(data, pos, b);
    StringUnique(data, pos, a.name, b.name);
    var p := pos + |StringBytes(a.name)|;
    StringUnique(data, p, a.typ, b.typ);
    var q := p + |StringBytes(a.typ)|;
    SizeUnique(data, q, a.bits, b.bits);
    NumberUnique(data, q + 4, |a.compound|, |b.compound|);
    ArgsUnique(known, data, q + 8, a.compound, b.compound);
  }

  lemma {:induction false} ArgsUnique(known: seq<Byte> -> bool, data: seq<Byte>, pos: nat, a: seq<Arg>, b: seq<Arg>)
    requires ArgsOk(known, a) && ArgsOk(known, b) && |a| == |b| && At(data, pos, ArgsBytes(a)) && At(data, pos, ArgsBytes(b))
    ensures a == b
    decreases a, 1
  {
    hide At, ArgBytes, ArgOk;
    if a != [] {
      AtSplit(data, pos, ArgBytes(a[0]), ArgsBytes(a[1..]));
      AtSplit(data, pos, ArgBytes(b[0]), ArgsBytes(b[1..]));
      ArgUnique(known, data, pos, a[0], b[0]);
      ArgsUnique(known, data, pos + |ArgBytes(a[0])|, a[1..], b[1..]);
      assert a == [a[0]] + a[1..] && b == [b[0]] + b[1..];
    }
  }

  lemma GateUnique(data: seq<Byte>, pos: nat, g: Gate, h: Gate)
    requires InWords(g) && InWords(h) && OneInput(g) && OneInput(h) && !h.op.Other?
    requires At(data, pos, GateBytes(g)) && At(data, pos, GateBytes(h))
    ensures g == h
  {
    hide U32, At;
    GateLaidOut(data, pos, g);
    GateLaidOut(data, pos, h);
    NumberUnique(data, pos + 1, g.input0, h.input0);
    if g.op == INV {
      NumberUnique(data, pos + 5, g.output, h.output);
    } else {
      NumberUnique(data, pos + 5, g.input1, h.input1);
      NumberUnique(data, pos + 9, g.output, h.output);
    }
  }

  lemma {:induction false} GatesUnique(data: seq<Byte>, pos: nat, u: seq<Gate>, v: seq<Gate>)
    requires |u| == |v| && ValidOps(v) && At(data, pos, GatesBytes(u)) && At(data, pos, GatesBytes(v))
    requires forall g :: g in u || g in v ==> InWords(g) && OneInput(g)
    ensures u == v
    decreases |u|
  {
    hide At, GateBytes, InWords, OneInput;
    if u != [] {
      AtSplit(data, pos, GateBytes(u[0]), GatesBytes(u[1..]));
      AtSplit(data, pos, GateBytes(v[0]), GatesBytes(v[1..]));
      assert u[0] in u && v[0] in v;
      GateUnique(data, pos, u[0], v[0]);
      GatesUnique(data, pos + |GateBytes(u[0])|, u[1..], v[1..]);
      assert u == [u[0]] + u[1..] && v == [v[0]] + v[1..];
    }
  }

  /** From the fifth on, the bytes hold at most one circuit of known gates. */
  lemma SameFile(known: seq<Byte> -> bool, data: seq<Byte>, c: File, d: File)
    requires Holds(data, c) && Holds(data, d) && Storable(known, c) && Storable(known, d) && ValidOps(d.gates)
    ensures c == d
  {
    hide U32, At, ArgsBytes, GatesBytes, ArgsOk, InWords, OneInput, Holds, ValidOps;
    HoldsLaidOut(data, c);
    HoldsLaidOut(data, d);
    NumberUnique(data, 4, |c.gates|, |d.gates|);
    NumberUnique(data, 8, c.numWires, d.numWires);
    NumberUnique(data, 12, |c.inputs|, |d.inputs|);
    NumberUnique(data, 16, |c.outputs|, |d.outputs|);
    ArgsUnique(known, data, 20, c.inputs, d.inputs);
    var p := 20 + |ArgsBytes(c.inputs)|;
    ArgsUnique(known, data, p, c.outputs, d.outputs);
    assert c.gates[0..] == c.gates && d.gates[0..] == d.gates;
    GatesUnique(data, p + |ArgsBytes(c.outputs)|, c.gates, d.gates);
  }

  /** The parser accepts exactly the bytes, from the fifth on, of sound circuits
      whose numbers fit their fields and whose types are known; so of a circuit
      that was written, exactly when it is sound. */
  method ParseExactly(data: seq<Byte>, room: Room, known: seq<Byte> -> bool) returns (res: Result<File>)
    requires Unlimited(room, |data|)
    ensures res.Ok? ==> Holds(data, res.value) && Storable(known, res.value) && Sound(res.value)
    ensures res.Ok? <==> exists c :: Holds(data, c) && Storable(known, c) && Sound(c)
    ensures forall c :: Holds(data, c) && Storable(known, c) ==> (res.Ok? <==> Sound(c)) && (res.Ok? ==> res.value == c)
  {
    hide Holds, Storable, Sound, Unlimited, WholeFile, ValidOps;
    ghost var want := File(0, [], [], []);
    if exists c :: Holds(data, c) && Storable(known, c) && Sound(c) {
      want :| Holds(data, want) && Storable(known, want) && Sound(want);
      NothingCut(data, room, want);
    }
    res := ParseMPCLC(data, room, known, want);
    if res.Ok? {
      SoundValid(res.value);
      forall c | Holds(data, c) && Storable(known, c) ensures c == res.value {
        SameFile(known, data, c, res.value);
      }
    }
  }

  lemma SoundValid(c: File)
    requires Sound(c)
    ensures ValidOps(c.gates)
  {
  }

  // ----- Sizes are signed -----

  /** A circuit that has inputs of these sizes, and nothing else. */
  function OnlyInputs(typ: seq<Byte>, sizes: seq<int>, n: nat): File {
    File(n, seq(|sizes|, i requires 0 <= i < |sizes| => Arg([], typ, sizes[i], [])), [], [])
  }

  /** Two inputs whose fields hold 0xFFFFFFFF and 2 are one wire to the parser. */
  method NegativeSize(typ: seq<Byte>, known: seq<Byte> -> bool, room: Room) returns (res: Result<File>)
    requires known(typ) && |typ| < WORD && Unlimited(room, |FileBytes(OnlyInputs(typ, [-1, 2], 1))|)
    ensures U32(-1) == U32(0xFFFF_FFFF) && res == Ok(OnlyInputs(typ, [-1, 2], 1))
  {
    hide FileBytes, Unlimited;
    var c := OnlyInputs(typ, [-1, 2], 1);
    InputsOnly(known, typ, [-1, 2], 1);
    SameField(0xFFFF_FFFF);
    FileHolds(c);
    res := ParseExactly(FileBytes(c), room, known);
  }

  /** One input of 2^31 bits marks no wire, so that wire 0 is not assigned. */
  method HugeInput(typ: seq<Byte>, known: seq<Byte> -> bool, room: Room) returns (res: Result<File>)
    requires known(typ) && |typ| < WORD && Unlimited(room, |FileBytes(OnlyInputs(typ, [0 - HALF], HALF))|)
    ensures U32(0 - HALF) == U32(HALF) && res.Err?
  {
    hide FileBytes, Unlimited;
    var c := OnlyInputs(typ, [0 - HALF], HALF);
    InputsOnly(known, typ, [0 - HALF], HALF);
    SameField(HALF);
    FileHolds(c);
    res := ParseExactly(FileBytes(c), room, known);
  }

  lemma FileHolds(c: File)
    ensures Holds(FileBytes(c), c)
  {
  }

  lemma LastInput(known: seq<Byte> -> bool, a: Arg)
    requires a.compound == [] && |a.name| < WORD && |a.typ| < WORD && IsSize(a.bits) && known(a.typ)
    ensures ArgsOk(known, [a]) && ArgBits([a]) == a.bits
  {
    assert ArgOk(known, a);
    assert [a][1..] == [];
  }

  /** Such a circuit is sound exactly when the sizes add up to its wires. */
  lemma InputsOnly(known: seq<Byte> -> bool, typ: seq<Byte>, sizes: seq<int>, n: nat)
    requires known(typ) && |typ| < WORD && n < WORD && 0 < |sizes| <= 2 && forall i :: 0 <= i < |sizes| ==> IsSize(sizes[i])
    ensures var c := OnlyInputs(typ, sizes, n);
            && Storable(known, c) && (Sound(c) <==> n == Count(ArgBits(c.inputs)))
            && ArgBits(c.inputs) == sizes[0] + (if |sizes| == 2 then sizes[1] else 0)
  {
    var c := OnlyInputs(typ, sizes, n);
    var k := InputWires(c.inputs);
    if |sizes| == 2 {
      assert c.inputs[1..] == [c.inputs[1]];
      LastInput(known, c.inputs[1]);
    } else {
      assert c.inputs == [c.inputs[0]];
      LastInput(known, c.inputs[0]);
    }
    assert ArgOk(known, c.inputs[0]);
    forall w: nat | w < n ensures Assigned([], k, w) <==> w < k {
    }
    assert k < n ==> !Assigned([], k, k);
  }

  lemma SeenDecides(gates: seq<Gate>, k: nat, n: nat, seen: seq<bool>)
    requires AllFit(gates, k, n) && seen == SeenAfter(gates, k, n)
    ensures (forall w :: 0 <= w < n ==> seen[w]) <==> AllAssigned(gates, k, n)
    ensures InOrder(gates, k) && ValidOps(gates) && (gates != [] ==> WiresBelow(gates, n))
  {
    hide SeenAfter, Assigned;
    FitIsInOrder(gates, k, n);
    forall w: nat | w < n ensures seen[w] <==> Assigned(gates, k, w) {
      SeenIsAssigned(gates, k, n, w);
    }
    if gates != [] {
      assert FitsAt(gates, k, n, 0);
    }
  }

  // ----- Every wire written once -----

  ghost predicate Covers(gates: seq<Gate>, wires: set<nat>) {
    forall w :: w in wires ==> exists g :: g in gates && g.output == w
  }

  lemma {:induction false} CoverIsLong(gates: seq<Gate>, wires: set<nat>)
    requires Covers(gates, wires)
    ensures |wires| <= |gates|
  {
    if gates == [] {
      assert wires == {};
    } else {
      var o := gates[0].output;
      forall w | w in wires - {o} ensures exists g :: g in gates[1..] && g.output == w {
        var g :| g in gates && g.output == w;
        assert g in gates[1..];
      }
      CoverIsLong(gates[1..], wires - {o});
    }
  }

  lemma {:induction false} TightCover(gates: seq<Gate>, wires: set<nat>)
    requires Covers(gates, wires) && |gates| == |wires|
    ensures WrittenOnce(gates) && forall g :: g in gates ==> g.output in wires
  {
    if gates != [] {
      var o, tail := gates[0].output, gates[1..];
      forall w | w in wires - {o} ensures exists g :: g in tail && g.output == w {
        var g :| g in gates && g.output == w;
        assert g in tail;
      }
      CoverIsLong(tail, wires - {o});
      assert o in wires && |wires - {o}| == |tail|;
      TightCover(tail, wires - {o});
      assert gates == [gates[0]] + tail;
    }
  }

  lemma {:induction false} OnceCounts(gates: seq<Gate>, wires: set<nat>)
    requires WrittenOnce(gates) && Covers(gates, wires) && forall g :: g in gates ==> g.output in wires
    ensures |gates| == |wires|
  {
    if gates == [] {
      assert wires == {};
    } else {
      var o, tail := gates[0].output, gates[1..];
      assert gates[0] in gates;
      forall w | w in wires - {o} ensures exists g :: g in tail && g.output == w {
        var g :| g in gates && g.output == w;
        assert g in tail;
      }
      OnceCounts(tail, wires - {o});
    }
  }

  function Range(a: nat, b: nat): (s: set<nat>)
    requires a <= b
    ensures |s| == b - a && forall w: nat :: w in s <==> a <= w < b
    decreases b - a
  {
    if a == b then {} else {a} + Range(a + 1, b)
  }

  /** In a sound circuit no wire is written twice and no input is overwritten,
      exactly when there are as many wires as input wires and gates. */
  lemma NoWireTwice(c: File)
    requires Sound(c)
    ensures c.numWires == InputWires(c.inputs) + |c.gates| <==> WrittenOnce(c.gates) && InputsUntouched(c.gates, InputWires(c.inputs))
  {
    hide InOrder;
    var k := InputWires(c.inputs);
    var wires := Range(k, c.numWires);
    forall w | w in wires ensures exists g :: g in c.gates && g.output == w {
      assert Assigned(c.gates, k, w);
    }
    if |c.gates| == |wires| {
      TightCover(c.gates, wires);
    }
    if WrittenOnce(c.gates) && InputsUntouched(c.gates, k) {
      OnceCounts(c.gates, wires);
    }
  }

  // ----- The bytes as numbers -----

  /** The four bytes at `pos` are the number, highest byte first. */
  predicate WordAt(data: seq<Byte>, pos: nat, n: int) {
    pos + 4 <= |data| &&
    var a: int, b: int, c: int, d: int := data[pos], data[pos + 1], data[pos + 2], data[pos + 3];
    n == a * 0x100_0000 + b * 0x1_0000 + c * 0x100 + d
  }

  lemma WordIs(data: seq<Byte>, pos: nat, n: nat)
    requires n < WORD && At(data, pos, U32(n))
    ensures WordAt(data, pos, n)
  {
    hide U32;
    NumberReadBack(data, pos, n);
  }

  lemma SizeIs(data: seq<Byte>, pos: nat, size: int)
    requires IsSize(size) && At(data, pos, U32(size))
    ensures WordAt(data, pos, if size < 0 then size + WORD else size)
  {
    hide U32;
    SameField(FieldOf(size));
    WordIs(data, pos, FieldOf(size));
  }

  /** The header of a file: magic number, gates, wires, inputs, outputs. */
  lemma HeaderWords(c: File)
    requires c.numWires < WORD && |c.gates| < WORD && |c.inputs| < WORD && |c.outputs| < WORD
    ensures var data := FileBytes(c);
            && WordAt(data, 0, 0x63726300) && WordAt(data, 4, |c.gates|) && WordAt(data, 8, c.numWires)
            && WordAt(data, 12, |c.inputs|) && WordAt(data, 16, |c.outputs|)
  {
    hide U32, At, ArgsBytes, GatesBytes, FileBytes, Expects;
    var data := FileBytes(c);
    FileHolds(c);
    HoldsLaidOut(data, c);
    MagicFirst(c);
    WordIs(data, 0, 0x63726300);
    WordIs(data, 4, |c.gates|);
    WordIs(data, 8, c.numWires);
    WordIs(data, 12, |c.inputs|);
    WordIs(data, 16, |c.outputs|);
  }

  lemma MagicFirst(c: File)
    ensures At(FileBytes(c), 0, U32(0x63726300))
  {
    hide U32, ArgsBytes, GatesBytes;
    assert FileBytes(c)[0..4] == U32(MAGIC);
  }

  /** Which byte stands for which gate. */
  predicate CodeIs(op: Op, b: Byte) {
    match op
    case XOR => b == 0
    case XNOR => b == 1
    case AND => b == 2
    case OR => b == 3
    case INV => b == 4
    case Other(_) => false
  }

  /** A gate: its byte, the first input, the second unless it is an inverter, and
      the output. */
  predicate GateWords(data: seq<Byte>, pos: nat, g: Gate) {
    && pos < |data| && CodeIs(g.op, data[pos]) && WordAt(data, pos + 1, g.input0)
    && if g.op == INV then WordAt(data, pos + 5, g.output) else WordAt(data, pos + 5, g.input1) && WordAt(data, pos + 9, g.output)
  }

  lemma GateWritten(data: seq<Byte>, pos: nat, g: Gate)
    requires At(data, pos, GateBytes(g)) && InWords(g) && !g.op.Other?
    ensures GateWords(data, pos, g)
  {
    hide U32, At, GateBytes, WordAt;
    GateLaidOut(data, pos, g);
    WordIs(data, pos + 1, g.input0);
    if g.op == INV {
      WordIs(data, pos + 5, g.output);
    } else {
      WordIs(data, pos + 5, g.input1);
      WordIs(data, pos + 9, g.output);
    }
  }

  /** How many bytes the gates before gate `i` take. */
  function GatePlace(gates: seq<Gate>, i: nat): nat
    requires i <= |gates|
  {
    if i == 0 then 0 else GatePlace(gates, i - 1) + if gates[i - 1].op == INV then 9 else 13
  }

  lemma {:induction false} GateAt(data: seq<Byte>, pos: nat, gates: seq<Gate>, i: nat)
    requires At(data, pos, GatesBytes(gates)) && i <= |gates|
    ensures At(data, pos + GatePlace(gates, i), GatesBytes(gates[i..]))
    ensures i < |gates| ==> At(data, pos + GatePlace(gates, i), GateBytes(gates[i]))
  {
    hide At, GateBytes;
    if i > 0 {
      GateAt(data, pos, gates, i - 1);
      assert gates[i - 1..][0] == gates[i - 1] && gates[i - 1..][1..] == gates[i..];
      AtSplit(data, pos + GatePlace(gates, i - 1), GateBytes(gates[i - 1]), GatesBytes(gates[i..]));
      GateLaidOut(data, pos + GatePlace(gates, i - 1), gates[i - 1]);
    } else {
      assert gates[0..] == gates;
    }
    if i < |gates| {
      assert gates[i..][0] == gates[i] && gates[i..][1..] == gates[i + 1..];
      AtSplit(data, pos + GatePlace(gates, i), GateBytes(gates[i]), GatesBytes(gates[i + 1..]));
    }
  }

  /** Gate `i` of a file stands behind the arguments and the gates before it. */
  lemma GateOfFile(data: seq<Byte>, c: File, i: nat)
    requires Holds(data, c) && i < |c.gates| && InWords(c.gates[i]) && !c.gates[i].op.Other?
    ensures GateWords(data, 20 + |ArgsBytes(c.inputs)| + |ArgsBytes(c.outputs)| + GatePlace(c.gates, i), c.gates[i])
  {
    hide At, GatesBytes, GateBytes, ArgsBytes, GateWords;
    HoldsLaidOut(data, c);
    assert c.gates[0..] == c.gates;
    var p := 20 + |ArgsBytes(c.inputs)| + |ArgsBytes(c.outputs)|;
    GateAt(data, p, c.gates, i);
    GateWritten(data, p + GatePlace(c.gates, i), c.gates[i]);
  }

  /** An argument: length and bytes of its name, then of its type, its size, and
      how many parts follow. */
  predicate ArgWords(data: seq<Byte>, pos: nat, a: Arg) {
    var q := pos + 4 + |a.name|;
    var z := q + 4 + |a.typ|;
    && WordAt(data, pos, |a.name|) && q <= |data| && data[pos + 4..q] == a.name
    && WordAt(data, q, |a.typ|) && z <= |data| && data[q + 4..z] == a.typ
    && WordAt(data, z, if a.bits < 0 then a.bits + WORD else a.bits) && WordAt(data, z + 4, |a.compound|)
  }

  lemma ArgWritten(known: seq<Byte> -> bool, data: seq<Byte>, pos: nat, a: Arg)
    requires At(data, pos, ArgBytes(a)) && ArgOk(known, a)
    ensures ArgWords(data, pos, a) && At(data, pos + 16 + |a.name| + |a.typ|, ArgsBytes(a.compound))
  {
    hide U32, ArgBytes, ArgsBytes, WordAt, StringBytes;
    LayArgOut(data, pos, a);
    var q := pos + |StringBytes(a.name)|;
    var z := q + |StringBytes(a.typ)|;
    LayStringOut(data, pos, a.name);
    LayStringOut(data, q, a.typ);
    WordIs(data, pos, |a.name|);
    WordIs(data, q, |a.typ|);
    SizeIs(data, z, a.bits);
    WordIs(data, z + 4, |a.compound|);
  }

  /** How many bytes an argument takes, and how many those before argument `i`. */
  function ArgPlace(args: seq<Arg>, i: nat): nat
    requires i <= |args|
  {
    if i == 0 then 0 else
      var a := args[i - 1];
      ArgPlace(args, i - 1) + 16 + |a.name| + |a.typ| + ArgPlace(a.compound, |a.compound|)
  }

  /** Argument `i` stands behind the arguments before it. */
  lemma ArgAt(data: seq<Byte>, pos: nat, args: seq<Arg>, i: nat)
    requires At(data, pos, ArgsBytes(args)) && i < |args|
    ensures At(data, pos + ArgPlace(args, i), ArgBytes(args[i]))
  {
    hide At, ArgBytes, U32;
    AllArgs(data, pos, args, i);
    assert args[i..][0] == args[i] && args[i..][1..] == args[i + 1..];
    AtSplit(data, pos + ArgPlace(args, i), ArgBytes(args[i]), ArgsBytes(args[i + 1..]));
  }

  lemma {:induction false} AllArgs(data: seq<Byte>, pos: nat, args: seq<Arg>, i: nat)
    requires At(data, pos, ArgsBytes(args)) && i <= |args|
    ensures At(data, pos + ArgPlace(args, i), ArgsBytes(args[i..]))
  {
    hide At, ArgBytes, U32;
    if i == 0 {
      assert args[0..] == args;
    } else {
      AllArgs(data, pos, args, i - 1);
      assert args[i - 1..][0] == args[i - 1] && args[i - 1..][1..] == args[i..];
      AtSplit(data, pos + ArgPlace(args, i - 1), ArgBytes(args[i - 1]), ArgsBytes(args[i..]));
      ArgLength(args[i - 1]);
    }
  }

  lemma {:induction false} ArgLength(a: Arg)
    ensures |ArgBytes(a)| == 16 + |a.name| + |a.typ| + ArgPlace(a.compound, |a.compound|)
    decreases a, 0
  {
    hide U32;
    ArgsLength(a.compound);
  }

  lemma {:induction false} ArgsLength(args: seq<Arg>)
    ensures |ArgsBytes(args)| == ArgPlace(args, |args|)
    decreases args, 1
  {
    hide ArgBytes;
    if args != [] {
      ArgLength(args[0]);
      ArgsLength(args[1..]);
      PlaceTail(args, |args|);
    }
  }

  lemma {:induction false} PlaceTail(args: seq<Arg>, i: nat)
    requires 0 < i <= |args|
    ensures ArgPlace(args, i) == ArgPlace(args, 1) + ArgPlace(args[1..], i - 1)
    decreases i
  {
    if i > 1 {
      PlaceTail(args, i - 1);
    }
  }

  // ----- One file, byte by byte -----

  /** Inputs a and b of one bit, one output, and a gate of each type. */
  const SMALL: File := File(7,
    [Arg([97], [98], 1, []), Arg([99], [98], 1, [])], [Arg([], [98], 1, [])],
    [Gate(XOR, 0, 1, 2), Gate(XNOR, 0, 1, 3), Gate(AND, 2, 3, 4), Gate(OR, 4, 0, 5), Gate(INV, 5, 0, 6)])

  const SMALL_HEAD: seq<Byte> :=
    [0x63, 0x72, 0x63, 0, 0, 0, 0, 5, 0, 0, 0, 7, 0, 0, 0, 2, 0, 0, 0, 1]

  const SMALL_ARGS: seq<Byte> :=
    [0, 0, 0, 1, 97, 0, 0, 0, 1, 98, 0, 0, 0, 1, 0, 0, 0, 0] + [0, 0, 0, 1, 99, 0, 0, 0, 1, 98, 0, 0, 0, 1, 0, 0, 0, 0]
    + [0, 0, 0, 0, 0, 0, 0, 1, 98, 0, 0, 0, 1, 0, 0, 0, 0]

  const SMALL_GATES: seq<Byte> :=
    [0, 0, 0, 0, 0, 0, 0, 0, 1, 0, 0, 0, 2] + [1, 0, 0, 0, 0, 0, 0, 0, 1, 0, 0, 0, 3] + [2, 0, 0, 0, 2, 0, 0, 0, 3, 0, 0, 0, 4]
    + [3, 0, 0, 0, 4, 0, 0, 0, 0, 0, 0, 0, 5] + [4, 0, 0, 0, 5, 0, 0, 0, 6]

  lemma SmallArgs()
    ensures ArgsBytes(SMALL.inputs) + ArgsBytes(SMALL.outputs) == SMALL_ARGS
  {
    var i, o := SMALL.inputs, SMALL.outputs;
    assert i[1..] == [i[1]] && [i[1]][1..] == [] && o[1..] == [];
    assert ArgBytes(i[0]) == [0, 0, 0, 1, 97, 0, 0, 0, 1, 98, 0, 0, 0, 1, 0, 0, 0, 0];
    assert ArgBytes(i[1]) == [0, 0, 0, 1, 99, 0, 0, 0, 1, 98, 0, 0, 0, 1, 0, 0, 0, 0];
    assert ArgBytes(o[0]) == [0, 0, 0, 0, 0, 0, 0, 1, 98, 0, 0, 0, 1, 0, 0, 0, 0];
    assert ArgsBytes(i) == ArgBytes(i[0]) + (ArgBytes(i[1]) + []);
    assert ArgsBytes(o) == ArgBytes(o[0]) + [];
  }

  lemma SmallGates()
    ensures GatesBytes(SMALL.gates) == SMALL_GATES
  {
    var g := SMALL.gates;
    assert GateBytes(g[0]) == [0, 0, 0, 0, 0, 0, 0, 0, 1, 0, 0, 0, 2];
    assert GateBytes(g[1]) == [1, 0, 0, 0, 0, 0, 0, 0, 1, 0, 0, 0, 3];
    assert GateBytes(g[2]) == [2, 0, 0, 0, 2, 0, 0, 0, 3, 0, 0, 0, 4];
    assert GateBytes(g[3]) == [3, 0, 0, 0, 4, 0, 0, 0, 0, 0, 0, 0, 5];
    assert GateBytes(g[4]) == [4, 0, 0, 0, 5, 0, 0, 0, 6];
    hide GateBytes;
    FiveGates(g[0], g[1], g[2], g[3], g[4]);
  }

  lemma FiveGates(a: Gate, b: Gate, c: Gate, d: Gate, e: Gate)
    ensures GatesBytes([a, b, c, d, e]) == GateBytes(a) + GateBytes(b) + GateBytes(c) + GateBytes(d) + GateBytes(e)
  {
    hide GateBytes;
    GatesSnoc([], a);
    GatesSnoc([a], b);
    GatesSnoc([a, b], c);
    GatesSnoc([a, b, c], d);
    GatesSnoc([a, b, c, d], e);
    assert [] + [a] == [a] && [a] + [b] == [a, b] && [a, b] + [c] == [a, b, c];
    assert [a, b, c] + [d] == [a, b, c, d] && [a, b, c, d] + [e] == [a, b, c, d, e];
  }

  lemma SmallBytes()
    ensures FileBytes(SMALL) == SMALL_HEAD + SMALL_ARGS + SMALL_GATES
  {
    SmallArgs();
    SmallGates();
    hide ArgsBytes, GatesBytes;
    assert U32(MAGIC) + U32(5) + U32(7) + U32(2) + U32(1) == SMALL_HEAD;
  }

  /** Writing the file gives these bytes. */
  method WriteSmall() returns (r: Result<seq<Byte>>)
    ensures r == Ok(SMALL_HEAD + SMALL_ARGS + SMALL_GATES)
  {
    SmallBytes();
    r := Marshal(SMALL);
  }

  /** Reading the bytes gives the file. */
  method ReadSmall(known: seq<Byte> -> bool, room: Room) returns (res: Result<File>)
    requires known([98]) && Unlimited(room, |SMALL_HEAD + SMALL_ARGS + SMALL_GATES|)
    ensures res == Ok(SMALL)
  {
    hide FileBytes, Unlimited;
    SmallBytes();
    FileHolds(SMALL);
    SmallStorable(known);
    SmallSound();
    res := ParseExactly(SMALL_HEAD + SMALL_ARGS + SMALL_GATES, room, known);
  }

  lemma SmallStorable(known: seq<Byte> -> bool)
    requires known([98])
    ensures Storable(known, SMALL)
  {
    LastInput(known, SMALL.inputs[1]);
    LastInput(known, SMALL.outputs[0]);
    assert ArgOk(known, SMALL.inputs[0]) && SMALL.inputs[1..] == [SMALL.inputs[1]];
  }

  lemma AssignedBy(gates: seq<Gate>, n: nat, k: nat, x: nat)
    requires x < n <= |gates|
    ensures Assigned(gates[..n], k, gates[x].output)
  {
    assert gates[..n][x] == gates[x];
  }

  lemma SmallSound()
    ensures Sound(SMALL)
  {
    hide Assigned;
    var g := SMALL.gates;
    assert SMALL.inputs[1..] == [SMALL.inputs[1]] && [SMALL.inputs[1]][1..] == [];
    assert InputWires(SMALL.inputs) == 2;
    InputsAssigned(g);
    AssignedBy(g, 2, 2, 0);
    AssignedBy(g, 2, 2, 1);
    AssignedBy(g, 3, 2, 2);
    AssignedBy(g, 4, 2, 3);
    assert InOrder(g, 2);
    assert g[..5] == g;
    forall w: nat | w < 7 ensures Assigned(g, 2, w) {
      if w >= 2 {
        AssignedBy(g, 5, 2, w - 2);
      }
    }
  }

  lemma InputsAssigned(gates: seq<Gate>)
    ensures forall n, w: nat :: 0 <= n <= |gates| && w < 2 ==> Assigned(gates[..n], 2, w)
    ensures forall w: nat :: w < 2 ==> Assigned(gates, 2, w)
  {
  }
}
