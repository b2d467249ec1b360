/** The two-party run: Garbler (circuit/garbler.go) and Evaluator
    (circuit/evaluator.go) with CO.Send and CO.Receive (ot/co.go), over the
    sequence-numbered connection of ot/connection.go and the keyed message store
    of ot/server_impl.go.  Any number of sessions share the store, and their
    steps interleave in any order. */
module Protocol {
  import opened Nat
  import opened Labels
  import opened Circuit
  import opened Garble
  import opened Transfer

  // ----- Messages and the store -----

  datatype Msg<E> =
    | EphemeralKey(key: nat)
    | Tables(tables: seq<seq<Label>>)
    | Inputs(labels: seq<Label>)
    | Query(offset: nat, count: nat)
    | Point(point: E)
    | Points(points: seq<E>)
    | Ciphertexts(data: seq<LabelCiphertext>)
    | ResultLabels(labels: seq<Label>)
    | ResultBits(value: nat)

  /** PrimaryKey, as the tuple it is made from. */
  datatype Index = Index(sid: nat, topic: string, src: nat, dst: nat, num: nat)

  type Store<E> = map<Index, Msg<E>>

  datatype Role = G | E

  function Me(r: Role): nat {
    if r == G then 1 else 2
  }

  function Peer(r: Role): nat {
    if r == G then 2 else 1
  }

  // ----- One session's inputs -----

  /** What both parties and their random sources bring to a session. */
  datatype Config<!E> = Config(
    circ: Circuit, aes: nat -> Cipher, key: nat, rand: seq<Label>, x: int,
    group: Group<E>, mask: Mask<E>, scalar: nat, scalars: seq<nat>, y: int)

  /** A circuit with one argument each, fit for garbling; enough randomness; and
      no neutral element among the points of the transfer. */
  ghost predicate Valid<E(!new)>(c: Config<E>) {
    && Runnable(c.circ) && ReadsKept(c.circ.gates, Size(c.circ.inputs))
    && |c.circ.inputs| == 2 && Size(c.circ.inputs) == Own(c.circ) + Other(c.circ)
    && |c.rand| > Size(c.circ.inputs) && Abelian(c.group)
    && AllOnCurve(c.group, c.scalar, c.scalars, Flags(c))
  }

  /** Widths of the garbler's and of the evaluator's argument. */
  function Own(c: Circuit): nat {
    if |c.inputs| > 0 then c.inputs[0].bits else 0
  }

  function Other(c: Circuit): nat {
    if |c.inputs| > 1 then c.inputs[1].bits else 0
  }

  function Offset<E>(c: Config<E>): Label {
    if |c.rand| > 0 then SetS(c.rand[0], true) else Zero()
  }

  ghost predicate CanGarble(c: Circuit, rand: seq<Label>) {
    c.InRange() && ValidOps(c.gates) && |rand| > Size(c.inputs)
  }

  /** The garbler's wires and tables. */
  ghost function GarbledBy<E>(c: Config<E>): (s: GarbleState)
    requires CanGarble(c.circ, c.rand)
    ensures |s.wires| == c.circ.numWires
  {
    GarbleRun(c.aes(c.key), Offset(c), c.circ.gates, InitialLabels(c.circ.numWires, Size(c.circ.inputs), Offset(c), c.rand[1..]))
  }

  // ----- What the parties compute between messages -----

  function ChosenBy(ws: seq<WireLabels>, v: int, n: nat): (labels: seq<Label>)
    requires n <= |ws|
    ensures |labels| == n
  {
    seq(n, i requires 0 <= i < n => LabelForBit(ws[i], BitOf(v, i)))
  }

  /** G3: the labels of the garbler's own input bits. */
  method OwnLabels(ws: seq<WireLabels>, v: int, n: nat) returns (labels: seq<Label>)
    requires n <= |ws|
    ensures labels == ChosenBy(ws, v, n)
  {
    labels := [];
    for i := 0 to n
      invariant labels == ChosenBy(ws, v, i)
    {
      labels := labels + [LabelForBit(ws[i], BitOf(v, i))];
      assert labels == ChosenBy(ws, v, i + 1);
    }
  }

  /** The bits behind the labels, if every label is one of its wire's two. */
  function DecodeLabels(ws: seq<WireLabels>, ls: seq<Label>): Result<seq<bool>> {
    if |ls| < |ws| then Err
    else if ws == [] then Ok([])
    else
      var n := |ws| - 1;
      var init := DecodeLabels(ws[..n], ls);
      var last := BitFromLabel(ws[n], ls[n]);
      if init.Err? || last.UnknownLabel? then Err else Ok(init.value + [last.value])
  }

  lemma {:induction false} DecodeLength(ws: seq<WireLabels>, ls: seq<Label>)
    ensures DecodeLabels(ws, ls).Ok? ==> |DecodeLabels(ws, ls).value| == |ws|
  {
    if ws != [] && |ls| >= |ws| {
      DecodeLength(ws[..|ws| - 1], ls);
    }
  }

  /** G7: the result as one integer, bit by bit; too few labels, which make the
      source index out of range, count as an error here. */
  method DecodeResult(ws: seq<WireLabels>, ls: seq<Label>) returns (r: Result<nat>)
    ensures r.Ok? <==> DecodeLabels(ws, ls).Ok?
    ensures r.Ok? ==> r.value == FromBits(DecodeLabels(ws, ls).value)
  {
    if |ls| < |ws| {
      return Err;
    }
    var value := 0;
    for i := 0 to |ws|
      invariant DecodeLabels(ws[..i], ls).Ok? && |DecodeLabels(ws[..i], ls).value| == i
      invariant value == FromBits(DecodeLabels(ws[..i], ls).value)
    {
      assert ws[..i + 1][..i] == ws[..i];
      var bit := BitFromLabel(ws[i], ls[i]);
      if bit.UnknownLabel? {
        DecodeStops(ws, ls, i + 1);
        return Err;
      }
      ghost var bits := DecodeLabels(ws[..i], ls).value;
      assert (bits + [bit.value])[..i] == bits;
      if bit.value {
        value := value + Pow2(i);
      }
    }
    assert ws[..|ws|] == ws;
    return Ok(value);
  }

  lemma {:induction false} DecodeStops(ws: seq<WireLabels>, ls: seq<Label>, n: nat)
    requires n <= |ws| && DecodeLabels(ws[..n], ls).Err?
    ensures DecodeLabels(ws, ls).Err?
  {
    if n == |ws| {
      assert ws[..n] == ws;
    } else if |ls| >= |ws| {
      assert ws[..|ws| - 1][..n] == ws[..n];
      DecodeStops(ws[..|ws| - 1], ls, n);
    }
  }

  /** E3 and E5: the received labels, the transferred ones, and zeros. */
  function EvaluatorWires(numWires: nat, inputs: seq<Label>, start: nat, chosen: seq<Label>): Result<seq<Label>> {
    if |inputs| <= numWires && start + |chosen| <= numWires then
      var wires := inputs + seq(numWires - |inputs|, i => Zero());
      Ok(wires[..start] + chosen + wires[start + |chosen|..])
    else Err
  }

  /** E6: the labels on the output wires. */
  ghost function Evaluated(c: Circuit, pi: Cipher, tables: seq<seq<Label>>, wires: seq<Label>): Result<seq<Label>> {
    if c.InRange() && |wires| == c.numWires && |c.gates| <= |tables| && EvalRun(pi, c.gates, tables, wires).Ok? then
      Ok(EvalRun(pi, c.gates, tables, wires).value.wires[c.numWires - Size(c.outputs)..])
    else Err
  }

  // ----- The two programs -----

  /** The next thing a party does. */
  datatype Act<E> = Send(topic: string, msg: Msg<E>) | Recv(topic: string) | Done | Fail

  /** The garbler after `pc` messages, having received `got`. */
  ghost function GarblerAct<E>(c: Config<E>, pc: nat, got: seq<Msg<E>>): Act<E> {
    if !CanGarble(c.circ, c.rand) || Own(c.circ) + Other(c.circ) > c.circ.numWires then Fail
    else
      var g := GarbledBy(c);
      var setup := Setup(c);
      match pc
      case 0 => Send("ephemeral key", EphemeralKey(c.key))
      case 1 => Send("garbled gates", Tables(g.tables))
      case 2 => Send("inputs", Inputs(ChosenBy(g.wires, c.x, Own(c.circ))))
      case 3 => Recv("ot query")
      case 4 => if got == [Query(Own(c.circ), Other(c.circ))] then Send("setup.Ax,Ay", Point(setup.a)) else Fail
      case 5 => Recv("co choices")
      case 6 => if |got| == 2 && got[1].Points? then AnswerChoices(c, g, setup, got[1].points) else Fail
      case 7 => Recv("result labels")
      case 8 => if |got| == 3 && got[2].ResultLabels? then AnswerLabels(c, g, got[2].labels) else Fail
      case _ => Done
  }

  ghost function AnswerChoices<E>(c: Config<E>, g: GarbleState, setup: SenderSetup<E>, points: seq<E>): Act<E>
    requires Own(c.circ) + Other(c.circ) <= |g.wires|
  {
    var r := CiphertextsFor(c.group, c.mask, setup, points, g.wires[Own(c.circ)..Own(c.circ) + Other(c.circ)]);
    if r.Ok? then Send("ot ciphertexts", Ciphertexts(r.value)) else Fail
  }

  ghost function AnswerLabels<E>(c: Config<E>, g: GarbleState, labels: seq<Label>): Act<E>
    requires c.circ.InRange() && |g.wires| == c.circ.numWires
  {
    var r := DecodeLabels(g.wires[c.circ.numWires - Size(c.circ.outputs)..], labels);
    if r.Ok? then Send("result", ResultBits(FromBits(r.value))) else Fail
  }

  /** The evaluator after `pc` messages, having received `got`. */
  ghost function EvaluatorAct<E>(c: Config<E>, pc: nat, got: seq<Msg<E>>): Act<E> {
    match pc
    case 0 => Recv("ephemeral key")
    case 1 => Recv("garbled gates")
    case 2 => Recv("inputs")
    case 3 => Send("ot query", Query(Own(c.circ), Other(c.circ)))
    case 4 => Recv("setup.Ax,Ay")
    case 5 => if |got| == 4 && got[3].Point? then SendChoices(c, got[3].point) else Fail
    case 6 => Recv("ot ciphertexts")
    case 7 =>
      if |got| == 5 && got[0].EphemeralKey? && got[1].Tables? && got[2].Inputs? && got[3].Point? && got[4].Ciphertexts?
      then Evaluate(c, got[0].key, got[1].tables, got[2].labels, got[3].point, got[4].data) else Fail
    case 8 => Recv("result")
    case _ => Done
  }

  ghost function SendChoices<E>(c: Config<E>, a: E): Act<E> {
    var r := ChoicesFor(c.group, a, Flags(c), c.scalars);
    if r.Ok? then Send("co choices", Points(r.value.1)) else Fail
  }

  ghost function Evaluate<E>(c: Config<E>, key: nat, tables: seq<seq<Label>>, inputs: seq<Label>, a: E, data: seq<LabelCiphertext>): Act<E> {
    var choices := ChoicesFor(c.group, a, Flags(c), c.scalars);
    if choices.Err? then Fail
    else
      var chosen := PlaintextsFor(c.group, c.mask, choices.value.0, data);
      if chosen.Err? || |chosen.value| != Other(c.circ) then Fail
      else SendLabels(c, key, tables, EvaluatorWires(c.circ.numWires, inputs, Own(c.circ), chosen.value))
  }

  ghost function SendLabels<E>(c: Config<E>, key: nat, tables: seq<seq<Label>>, wires: Result<seq<Label>>): Act<E> {
    if wires.Err? then Fail
    else
      var r := Evaluated(c.circ, c.aes(key), tables, wires.value);
      if r.Ok? then Send("result labels", ResultLabels(r.value)) else Fail
  }

  // ----- The system -----

  /** `pc` counts the messages of the run that the party is past. */
  datatype Party<E> = Party(pc: nat, nsend: nat, nrecv: nat, got: seq<Msg<E>>)

  datatype Session<E> = Session(g: Party<E>, e: Party<E>)

  datatype System<E> = System(sessions: map<nat, Session<E>>, store: Store<E>)

  ghost function NextAct<E>(c: Config<E>, r: Role, p: Party<E>): Act<E> {
    if r == G then GarblerAct(c, p.pc, p.got) else EvaluatorAct(c, p.pc, p.got)
  }

  function At<E>(s: Session<E>, r: Role): Party<E> {
    if r == G then s.g else s.e
  }

  function Put<E>(s: Session<E>, r: Role, p: Party<E>): Session<E> {
    if r == G then s.(g := p) else s.(e := p)
  }

  /** Conn.DirectSend and handleInbox: the counter goes up, the value is stored. */
  function AfterSend<E>(p: Party<E>): Party<E> {
    p.(pc := p.pc + 1, nsend := p.nsend + 1)
  }

  /** Conn.DirectRecv and handleOutbox: the value is read, and stays. */
  function AfterRecv<E>(p: Party<E>, m: Msg<E>): Party<E> {
    p.(pc := p.pc + 1, nrecv := p.nrecv + 1, got := p.got + [m])
  }

  function SendIndex<E>(sid: nat, r: Role, p: Party<E>, topic: string): Index {
    Index(sid, topic, Me(r), Peer(r), p.nsend + 1)
  }

  function RecvIndex<E>(sid: nat, r: Role, p: Party<E>, topic: string): Index {
    Index(sid, topic, Peer(r), Me(r), p.nrecv + 1)
  }

  /** One party of one session makes its next send, or its next receive once
      the value is there. */
  ghost predicate Step<E>(cs: map<nat, Config<E>>, s: System<E>, t: System<E>, sid: nat, r: Role) {
    && sid in cs && sid in s.sessions
    && var p := At(s.sessions[sid], r);
       match NextAct(cs[sid], r, p)
       case Send(topic, m) =>
         t == System(s.sessions[sid := Put(s.sessions[sid], r, AfterSend(p))], s.store[SendIndex(sid, r, p, topic) := m])
       case Recv(topic) =>
         && RecvIndex(sid, r, p, topic) in s.store
         && t == System(s.sessions[sid := Put(s.sessions[sid], r, AfterRecv(p, s.store[RecvIndex(sid, r, p, topic)]))], s.store)
       case Done => false
       case Fail => false
  }

  ghost predicate Initial<E>(cs: map<nat, Config<E>>, s: System<E>) {
    && s.sessions.Keys == cs.Keys && s.store == map[]
    && forall sid :: sid in cs ==> s.sessions[sid] == Session(Party(0, 0, 0, []), Party(0, 0, 0, []))
  }

  /** A run: any interleaving of the steps of any number of sessions. */
  ghost predicate Run<E>(cs: map<nat, Config<E>>, trace: seq<System<E>>) {
    && trace != [] && Initial(cs, trace[0])
    && forall i :: 0 <= i < |trace| - 1 ==> Moves(cs, trace[i], trace[i + 1])
  }

  ghost predicate Moves<E>(cs: map<nat, Config<E>>, s: System<E>, t: System<E>) {
    exists sid, r :: Step(cs, s, t, sid, r)
  }

  // ----- What the messages should be -----

  function Sender(m: nat): Role {
    if m == 3 || m == 5 || m == 7 then Role.E else Role.G
  }

  function TopicOf(m: nat): string {
    match m
    case 0 => "ephemeral key"
    case 1 => "garbled gates"
    case 2 => "inputs"
    case 3 => "ot query"
    case 4 => "setup.Ax,Ay"
    case 5 => "co choices"
    case 6 => "ot ciphertexts"
    case 7 => "result labels"
    case _ => "result"
  }

  /** How many of the first `m` messages `r` sends. */
  function SentBefore(r: Role, m: nat): nat {
    if m == 0 then 0 else SentBefore(r, m - 1) + if Sender(m - 1) == r then 1 else 0
  }

  function IndexOf(sid: nat, m: nat): Index {
    Index(sid, TopicOf(m), Me(Sender(m)), Peer(Sender(m)), SentBefore(Sender(m), m) + 1)
  }

  function Value<T>(r: Result<T>, d: T): T {
    if r.Ok? then r.value else d
  }

  /** The input bits of both parties, the garbler's first. */
  function PlainBits<E>(c: Config<E>): (bits: seq<bool>)
    ensures |bits| == Own(c.circ) + Other(c.circ)
  {
    ToBits(c.x, Own(c.circ)) + Flags(c)
  }

  /** The labels of the evaluator's argument. */
  ghost function EvaluatorPairs<E(!new)>(c: Config<E>): (ws: seq<WireLabels>)
    requires Valid(c)
    ensures |ws| == Other(c.circ)
  {
    GarbledBy(c).wires[Own(c.circ)..Own(c.circ) + Other(c.circ)]
  }

  function Flags<E>(c: Config<E>): (flags: seq<bool>)
    ensures |flags| == Other(c.circ)
  {
    ToBits(c.y, Other(c.circ))
  }

  /** The wires the evaluator starts from. */
  ghost function StartWires<E(!new)>(c: Config<E>): (wires: seq<Label>)
    requires Valid(c)
  {
    Padded(ChosenBy(GarbledBy(c).wires, c.x, Own(c.circ)) + ChosenLabels(EvaluatorPairs(c), Flags(c)), c.circ.numWires)
  }

  function Padded(labels: seq<Label>, n: nat): (wires: seq<Label>)
    ensures |wires| >= n && (|labels| <= n ==> |wires| == n)
  {
    labels + seq(if |labels| < n then n - |labels| else 0, i => Zero())
  }

  /** The m-th message of the session, as a function of its inputs alone. */
  ghost function Message<E(!new)>(c: Config<E>, m: nat): Msg<E>
    requires Valid(c)
  {
    var g := GarbledBy(c);
    match m
    case 0 => EphemeralKey(c.key)
    case 1 => Tables(g.tables)
    case 2 => Inputs(ChosenBy(g.wires, c.x, Own(c.circ)))
    case 3 => Query(Own(c.circ), Other(c.circ))
    case 4 => Point(Setup(c).a)
    case 5 => Points(IdealPoints(c))
    case 6 => Ciphertexts(IdealCiphertexts(c))
    case 7 => ResultLabels(IdealLabels(c))
    case _ => ResultBits(FromBits(OutputBits(c)))
  }

  ghost function IdealLabels<E(!new)>(c: Config<E>): seq<Label>
    requires Valid(c)
  {
    Value(Evaluated(c.circ, c.aes(c.key), GarbledBy(c).tables, StartWires(c)), [])
  }

  /** What Compute gives for the inputs of both parties. */
  ghost function OutputBits<E(!new)>(c: Config<E>): (bits: seq<bool>)
    requires Valid(c)
    ensures |bits| == Size(c.circ.outputs)
  {
    Meaning(c.circ, PlainBits(c))
  }

  /** The labels of the output wires. */
  ghost function OutputPairs<E(!new)>(c: Config<E>): (ws: seq<WireLabels>)
    requires Valid(c)
    ensures |ws| == Size(c.circ.outputs)
  {
    GarbledBy(c).wires[c.circ.numWires - Size(c.circ.outputs)..]
  }

  ghost function IdealPoints<E>(c: Config<E>): seq<E> {
    var r := ChoicesFor(c.group, Setup(c).a, Flags(c), c.scalars);
    if r.Ok? then r.value.1 else []
  }

  function Setup<E>(c: Config<E>): SenderSetup<E> {
    GenerateSetup(c.group, c.scalar)
  }

  ghost function IdealCiphertexts<E(!new)>(c: Config<E>): seq<LabelCiphertext>
    requires Valid(c)
  {
    Value(CiphertextsFor(c.group, c.mask, Setup(c), IdealPoints(c), EvaluatorPairs(c)), [])
  }

  ghost function Bundle<E>(c: Config<E>): ChoiceBundle<E> {
    ChoiceBundle(Setup(c).a, c.scalars[..Min(|c.scalars|, Other(c.circ))], Flags(c))
  }

  /** The messages that `r` has received when it is past `pc` messages. */
  ghost function Got<E(!new)>(c: Config<E>, r: Role, pc: nat): seq<Msg<E>>
    requires Valid(c)
  {
    if pc == 0 then [] else Got(c, r, pc - 1) + if Sender(pc - 1) == r then [] else [Message(c, pc - 1)]
  }

  /** What each party does at each point of a run in which it has received what
      it should. */
  ghost function Expected<E(!new)>(c: Config<E>, r: Role, pc: nat): Act<E>
    requires Valid(c)
  {
    if pc >= 9 then Done
    else if Sender(pc) == r then Send(TopicOf(pc), Message(c, pc))
    else Recv(TopicOf(pc))
  }

  // ----- Each party does what it should -----

  lemma {:induction false} DecodeAll(ws: seq<WireLabels>, ls: seq<Label>, bits: seq<bool>)
    requires |ls| == |ws| == |bits| && forall j :: 0 <= j < |ws| ==> BitFromLabel(ws[j], ls[j]) == Labels.Bit(bits[j])
    ensures DecodeLabels(ws, ls) == Ok(bits)
  {
    DecodePrefix(ws, ls, bits, |ws|);
    assert ws[..|ws|] == ws && bits[..|ws|] == bits;
  }

  lemma {:induction false} DecodePrefix(ws: seq<WireLabels>, ls: seq<Label>, bits: seq<bool>, n: nat)
    requires |ls| == |ws| == |bits| && n <= |ws|
    requires forall j :: 0 <= j < |ws| ==> BitFromLabel(ws[j], ls[j]) == Labels.Bit(bits[j])
    ensures DecodeLabels(ws[..n], ls) == Ok(bits[..n])
  {
    hide BitFromLabel;
    if n > 0 {
      DecodePrefix(ws, ls, bits, n - 1);
      assert ws[..n][..n - 1] == ws[..n - 1];
      assert bits[..n] == bits[..n - 1] + [bits[n - 1]];
    }
  }

  lemma ValidRanges<E(!new)>(c: Config<E>)
    requires Valid(c)
    ensures CanGarble(c.circ, c.rand) && Own(c.circ) + Other(c.circ) == Size(c.circ.inputs) <= c.circ.numWires
    ensures Size(c.circ.outputs) <= c.circ.numWires
    ensures S(Offset(c))
  {
  }

  /** The evaluator ends up with the labels of all its input bits. */
  lemma TransferredLabels<E(!new)>(c: Config<E>)
    requires Valid(c)
    ensures ChoicesFor(c.group, Setup(c).a, Flags(c), c.scalars) == Ok((Bundle(c), IdealPoints(c)))
    ensures CiphertextsFor(c.group, c.mask, Setup(c), IdealPoints(c), EvaluatorPairs(c)) == Ok(IdealCiphertexts(c))
    ensures PlaintextsFor(c.group, c.mask, Bundle(c), IdealCiphertexts(c)) == Ok(ChosenLabels(EvaluatorPairs(c), Flags(c)))
  {
    hide Scale, Abelian, Runnable, ToBits, GarbledBy, CiphertextsFor, PlaintextsFor, OnCurve, EvaluatorPairs, ChosenLabels, CanGarble, Own, Other, Size;
    TransferWorks(c.group, c.mask, c.scalar, c.scalars, EvaluatorPairs(c), Flags(c));
    var choices := ChoicesFor(c.group, Setup(c).a, Flags(c), c.scalars);
    assert choices.Ok? && choices.value.0 == Bundle(c);
  }

  lemma WiresAssembled<E(!new)>(c: Config<E>)
    requires Valid(c)
    ensures Own(c.circ) <= |GarbledBy(c).wires|
    ensures EvaluatorWires(c.circ.numWires, ChosenBy(GarbledBy(c).wires, c.x, Own(c.circ)), Own(c.circ), ChosenLabels(EvaluatorPairs(c), Flags(c)))
            == Ok(StartWires(c))
  {
    ValidRanges(c);
    hide Abelian, Runnable, ToBits, GarbledBy, AllOnCurve, EvaluatorPairs;
    var n, m := Own(c.circ), Other(c.circ);
    var inputs, chosen := ChosenBy(GarbledBy(c).wires, c.x, n), ChosenLabels(EvaluatorPairs(c), Flags(c));
    var wires := inputs + seq(c.circ.numWires - |inputs|, i => Zero());
    assert wires[..n] == inputs;
    assert wires[n + m..] == seq(c.circ.numWires - n - m, i => Zero());
  }

  /** Evaluation of those labels decodes to the meaning of the circuit. */
  lemma LabelsDecode<E(!new)>(c: Config<E>)
    requires Valid(c)
    ensures Evaluated(c.circ, c.aes(c.key), GarbledBy(c).tables, StartWires(c)) == Ok(IdealLabels(c))
    ensures DecodeLabels(OutputPairs(c), IdealLabels(c)) == Ok(OutputBits(c))
  {
    hide Abelian, Meaning, BitFromLabel, Size, EvalRun, DecodeLabels;
    EvaluationWorks(c);
    DecodeAll(OutputPairs(c), IdealLabels(c), OutputBits(c));
  }

  lemma EvaluationWorks<E(!new)>(c: Config<E>)
    requires Valid(c)
    ensures Evaluated(c.circ, c.aes(c.key), GarbledBy(c).tables, StartWires(c)) == Ok(IdealLabels(c))
    ensures |IdealLabels(c)| == Size(c.circ.outputs)
    ensures forall j :: 0 <= j < Size(c.circ.outputs) ==>
              BitFromLabel(OutputPairs(c)[j], IdealLabels(c)[j]) == Labels.Bit(OutputBits(c)[j])
  {
    hide Abelian, GarbleRun, EvalRun, Meaning, InitialLabels, BitFromLabel, InOrder, OutputsAssigned, ReadsKept, Size, PlainBits, StartWires;
    ValidRanges(c);
    StartLabels(c);
    GarblingComputes(c.circ, c.aes(c.key), Offset(c), c.rand[1..], PlainBits(c), StartWires(c));
    var base := c.circ.numWires - Size(c.circ.outputs);
    forall j | 0 <= j < Size(c.circ.outputs)
      ensures BitFromLabel(OutputPairs(c)[j], IdealLabels(c)[j]) == Labels.Bit(OutputBits(c)[j])
    {
      assert Garble.OutputWire(c.circ, j) == base + j;
    }
  }

  lemma StartLabels<E(!new)>(c: Config<E>)
    requires Valid(c)
    ensures |PlainBits(c)| <= |GarbledBy(c).wires| && |StartWires(c)| == c.circ.numWires
    ensures forall i :: 0 <= i < |PlainBits(c)| ==> StartWires(c)[i] == LabelForBit(GarbledBy(c).wires[i], PlainBits(c)[i])
  {
    hide Abelian, GarbleRun, AllOnCurve, BitOf, LabelForBit;
    ValidRanges(c);
  }

  lemma GotGarbler<E(!new)>(c: Config<E>)
    requires Valid(c)
    ensures Got(c, Role.G, 4) == [Message(c, 3)]
    ensures Got(c, Role.G, 6) == [Message(c, 3), Message(c, 5)]
    ensures Got(c, Role.G, 8) == [Message(c, 3), Message(c, 5), Message(c, 7)]
  {
    hide Message, Valid;
    assert Got(c, Role.G, 3) == Got(c, Role.G, 2) == Got(c, Role.G, 1) == Got(c, Role.G, 0) == [];
    assert Got(c, Role.G, 4) == [Message(c, 3)];
    assert Got(c, Role.G, 5) == Got(c, Role.G, 4);
    assert Got(c, Role.G, 6) == [Message(c, 3), Message(c, 5)];
    assert Got(c, Role.G, 7) == Got(c, Role.G, 6);
  }

  lemma GotEvaluator<E(!new)>(c: Config<E>)
    requires Valid(c)
    ensures Got(c, Role.E, 5) == [Message(c, 0), Message(c, 1), Message(c, 2), Message(c, 4)]
    ensures Got(c, Role.E, 7) == [Message(c, 0), Message(c, 1), Message(c, 2), Message(c, 4), Message(c, 6)]
    ensures Got(c, Role.E, 9) == [Message(c, 0), Message(c, 1), Message(c, 2), Message(c, 4), Message(c, 6), Message(c, 8)]
  {
    hide Message, Valid;
    assert Got(c, Role.E, 0) == [];
    assert Got(c, Role.E, 1) == [Message(c, 0)];
    assert Got(c, Role.E, 2) == [Message(c, 0), Message(c, 1)];
    assert Got(c, Role.E, 3) == [Message(c, 0), Message(c, 1), Message(c, 2)];
    assert Got(c, Role.E, 4) == Got(c, Role.E, 3);
    assert Got(c, Role.E, 5) == [Message(c, 0), Message(c, 1), Message(c, 2), Message(c, 4)];
    assert Got(c, Role.E, 6) == Got(c, Role.E, 5);
    assert Got(c, Role.E, 7) == [Message(c, 0), Message(c, 1), Message(c, 2), Message(c, 4), Message(c, 6)];
    assert Got(c, Role.E, 8) == Got(c, Role.E, 7);
  }

  lemma GarblerAnswers<E(!new)>(c: Config<E>)
    requires Valid(c)
    ensures CanGarble(c.circ, c.rand) && Own(c.circ) + Other(c.circ) <= |GarbledBy(c).wires|
    ensures AnswerChoices(c, GarbledBy(c), Setup(c), IdealPoints(c)) == Send(TopicOf(6), Message(c, 6))
    ensures AnswerLabels(c, GarbledBy(c), IdealLabels(c)) == Send(TopicOf(8), Message(c, 8))
  {
    hide Valid, Abelian, GarbledBy, CiphertextsFor, Size, IdealPoints, StartWires, PlainBits, Setup, Evaluated, DecodeLabels, Meaning, CanGarble, Own, Other;
    ValidRanges(c);
    TransferredLabels(c);
    GarblerReads(c);
  }

  lemma GarblerReads<E(!new)>(c: Config<E>)
    requires Valid(c)
    ensures CanGarble(c.circ, c.rand)
    ensures AnswerLabels(c, GarbledBy(c), IdealLabels(c)) == Send(TopicOf(8), Message(c, 8))
  {
    hide Valid, Abelian, GarbledBy, CiphertextsFor, Size, IdealPoints, StartWires, PlainBits, Setup, Evaluated, DecodeLabels, Meaning, Own, Other;
    hide EvaluatorPairs, ChosenBy, IdealCiphertexts, OutputBits, IdealLabels, FromBits;
    ValidRanges(c);
    LabelsDecode(c);
  }

  lemma GarblerExpected<E(!new)>(c: Config<E>, pc: nat)
    requires Valid(c) && pc <= 9
    ensures GarblerAct(c, pc, Got(c, Role.G, pc)) == Expected(c, Role.G, pc)
  {
    hide Valid, GarbledBy, CanGarble, Size, Own, Other, AnswerChoices, AnswerLabels, Setup, ChosenBy, IdealPoints, IdealCiphertexts, StartWires, Evaluated;
    hide PlainBits, Meaning, FromBits, Got, IdealLabels, OutputBits;
    ValidRanges(c);
    GotGarbler(c);
    GarblerAnswers(c);
  }

  lemma EvaluatorAnswers<E(!new)>(c: Config<E>)
    requires Valid(c)
    ensures SendChoices(c, Setup(c).a) == Send(TopicOf(5), Message(c, 5))
    ensures Evaluate(c, c.key, GarbledBy(c).tables, ChosenBy(GarbledBy(c).wires, c.x, Own(c.circ)), Setup(c).a, IdealCiphertexts(c))
            == Send(TopicOf(7), Message(c, 7))
  {
    hide Valid, Abelian, ToBits, GarbledBy, CiphertextsFor, PlaintextsFor, ChoicesFor, Meaning, DecodeLabels, Evaluated, Size, IdealPoints, StartWires, PlainBits;
    hide GarbleRun, IdealLabels, OutputBits, ChosenBy, Bundle, IdealCiphertexts, EvaluatorWires, Setup, Own;
    ValidRanges(c);
    TransferredLabels(c);
    WiresAssembled(c);
    LabelsDecode(c);
  }

  lemma EvaluatorExpected<E(!new)>(c: Config<E>, pc: nat)
    requires Valid(c) && pc <= 9
    ensures EvaluatorAct(c, pc, Got(c, Role.E, pc)) == Expected(c, Role.E, pc)
  {
    hide Valid, GarbledBy, CanGarble, Size, Own, Other, SendChoices, Evaluate, Setup, ChosenBy, IdealPoints, IdealCiphertexts, StartWires, Evaluated;
    hide PlainBits, Meaning, FromBits, Got, IdealLabels, OutputBits;
    ValidRanges(c);
    GotEvaluator(c);
    EvaluatorAnswers(c);
  }

  // ----- What every interleaving keeps -----

  function Opposite(r: Role): Role {
    if r == Role.G then Role.E else Role.G
  }

  /** A party past `pc` messages has counted them and holds those sent to it. */
  ghost predicate PartyOk<E(!new)>(c: Config<E>, r: Role, p: Party<E>)
    requires Valid(c)
  {
    && p.pc <= 9 && p.nsend == SentBefore(r, p.pc) && p.nrecv == SentBefore(Opposite(r), p.pc)
    && p.got == Got(c, r, p.pc)
  }

  /** Message `m` is in the store exactly when its sender is past it, and then
      it is the right one. */
  ghost predicate StoredOk<E(!new)>(c: Config<E>, sid: nat, s: Session<E>, store: Store<E>, m: nat)
    requires Valid(c)
  {
    && (IndexOf(sid, m) in store <==> m < At(s, Sender(m)).pc)
    && (IndexOf(sid, m) in store ==> store[IndexOf(sid, m)] == Message(c, m))
  }

  ghost predicate SessionOk<E(!new)>(c: Config<E>, sid: nat, s: Session<E>, store: Store<E>)
    requires Valid(c)
  {
    && PartyOk(c, Role.G, s.g) && PartyOk(c, Role.E, s.e)
    && (forall m :: 0 <= m < 9 ==> StoredOk(c, sid, s, store, m))
    && (forall m :: 0 <= m < 9 ==> SenderLeads(s, m))
  }

  predicate SenderLeads<E>(s: Session<E>, m: nat) {
    m < At(s, Opposite(Sender(m))).pc ==> m < At(s, Sender(m)).pc
  }

  ghost predicate AllValid<E(!new)>(cs: map<nat, Config<E>>) {
    forall sid :: sid in cs ==> Valid(cs[sid])
  }

  ghost predicate Inv<E(!new)>(cs: map<nat, Config<E>>, s: System<E>)
    requires AllValid(cs)
  {
    s.sessions.Keys == cs.Keys && forall sid :: sid in cs ==> SessionOk(cs[sid], sid, s.sessions[sid], s.store)
  }

  lemma TopicsDiffer(m: nat, n: nat)
    requires m < n < 9
    ensures TopicOf(m) != TopicOf(n)
  {
    assert |TopicOf(0)| == |TopicOf(1)| == |TopicOf(7)| == 13 && TopicOf(0)[0] == 'e' && TopicOf(1)[0] == 'g' && TopicOf(7)[0] == 'r';
  }

  lemma IndexDiffers(sid: nat, m: nat, n: nat)
    requires m < 9 && n < 9 && m != n
    ensures IndexOf(sid, m) != IndexOf(sid, n)
  {
    hide TopicOf;
    if m < n {
      TopicsDiffer(m, n);
    } else {
      TopicsDiffer(n, m);
    }
  }

  lemma ActExpected<E(!new)>(c: Config<E>, r: Role, p: Party<E>)
    requires Valid(c) && PartyOk(c, r, p)
    ensures NextAct(c, r, p) == Expected(c, r, p.pc)
  {
    hide Valid, GarblerAct, EvaluatorAct, Expected, Got;
    if r == Role.G {
      GarblerExpected(c, p.pc);
    } else {
      EvaluatorExpected(c, p.pc);
    }
  }

  /** A send puts the party's next message at its place in the store. */
  lemma SendKeeps<E(!new)>(c: Config<E>, sid: nat, s: Session<E>, store: Store<E>, r: Role)
    requires Valid(c) && SessionOk(c, sid, s, store)
    requires At(s, r).pc < 9 && Sender(At(s, r).pc) == r
    ensures var p := At(s, r);
            && SendIndex(sid, r, p, TopicOf(p.pc)) == IndexOf(sid, p.pc)
            && SessionOk(c, sid, Put(s, r, AfterSend(p)), store[IndexOf(sid, p.pc) := Message(c, p.pc)])
  {
    hide Valid, Message, TopicOf;
    var p := At(s, r);
    var t := Put(s, r, AfterSend(p));
    var next := store[IndexOf(sid, p.pc) := Message(c, p.pc)];
    forall m | 0 <= m < 9 ensures StoredOk(c, sid, t, next, m) && SenderLeads(t, m) {
      assert StoredOk(c, sid, s, store, m) && SenderLeads(s, m);
      if m != p.pc {
        IndexDiffers(sid, m, p.pc);
      }
    }
  }

  lemma RecvKeeps<E(!new)>(c: Config<E>, sid: nat, s: Session<E>, store: Store<E>, r: Role)
    requires Valid(c) && SessionOk(c, sid, s, store)
    requires At(s, r).pc < 9 && Sender(At(s, r).pc) != r
    ensures var p := At(s, r);
            && RecvIndex(sid, r, p, TopicOf(p.pc)) == IndexOf(sid, p.pc)
            && (IndexOf(sid, p.pc) in store ==> SessionOk(c, sid, Put(s, r, AfterRecv(p, store[IndexOf(sid, p.pc)])), store))
  {
    hide Valid, Message, TopicOf;
    var p := At(s, r);
    assert StoredOk(c, sid, s, store, p.pc);
    if IndexOf(sid, p.pc) in store {
      var t := Put(s, r, AfterRecv(p, store[IndexOf(sid, p.pc)]));
      forall m | 0 <= m < 9 ensures StoredOk(c, sid, t, store, m) && SenderLeads(t, m) {
        assert StoredOk(c, sid, s, store, m) && SenderLeads(s, m);
      }
    }
  }

  /** Writing at another session's index changes nothing here. */
  lemma OtherSession<E(!new)>(c: Config<E>, sid: nat, s: Session<E>, store: Store<E>, i: Index, m: Msg<E>)
    requires Valid(c) && SessionOk(c, sid, s, store) && i.sid != sid
    ensures SessionOk(c, sid, s, store[i := m])
  {
    hide Valid, Message, TopicOf;
    var next := store[i := m];
    forall n | 0 <= n < 9 ensures StoredOk(c, sid, s, next, n) {
      assert StoredOk(c, sid, s, store, n);
    }
  }

  lemma StepKeeps<E(!new)>(cs: map<nat, Config<E>>, s: System<E>, t: System<E>, sid: nat, r: Role)
    requires AllValid(cs) && Inv(cs, s) && Step(cs, s, t, sid, r)
    ensures Inv(cs, t)
  {
    hide Valid, SessionOk, NextAct, Message, TopicOf, IndexOf;
    var c, x := cs[sid], s.sessions[sid];
    var p := At(x, r);
    assert PartyOk(c, r, p) by { OpenSession(c, sid, x, s.store); }
    ActExpected(c, r, p);
    if p.pc < 9 && Sender(p.pc) == r {
      SendKeeps(c, sid, x, s.store, r);
      forall o | o in cs ensures SessionOk(cs[o], o, t.sessions[o], t.store) {
        if o != sid {
          OtherSession(cs[o], o, s.sessions[o], s.store, SendIndex(sid, r, p, TopicOf(p.pc)), Message(c, p.pc));
        }
      }
    } else {
      RecvKeeps(c, sid, x, s.store, r);
    }
  }

  lemma OpenSession<E(!new)>(c: Config<E>, sid: nat, s: Session<E>, store: Store<E>)
    requires Valid(c) && SessionOk(c, sid, s, store)
    ensures PartyOk(c, Role.G, s.g) && PartyOk(c, Role.E, s.e)
  {
  }

  lemma InitialOk<E(!new)>(cs: map<nat, Config<E>>, s: System<E>)
    requires AllValid(cs) && Initial(cs, s)
    ensures Inv(cs, s)
  {
    hide Valid;
  }

  // ----- The theorems -----

  /** Safety: the invariant holds in every state of every run. */
  lemma {:induction false} RunsKeep<E(!new)>(cs: map<nat, Config<E>>, trace: seq<System<E>>, i: nat)
    requires AllValid(cs) && Run(cs, trace) && i < |trace|
    ensures Inv(cs, trace[i])
    decreases i
  {
    hide Inv, Step;
    if i == 0 {
      InitialOk(cs, trace[0]);
    } else {
      RunsKeep(cs, trace, i - 1);
      assert Moves(cs, trace[i - 1], trace[i - 1 + 1]);
      var sid, r :| Step(cs, trace[i - 1], trace[i], sid, r);
      StepKeeps(cs, trace[i - 1], trace[i], sid, r);
    }
  }

  /** Each receive gets exactly the value that the matching step has sent: the
      party's next message of its own session, from its own peer. */
  lemma ReceivesMatch<E(!new)>(cs: map<nat, Config<E>>, s: System<E>, t: System<E>, sid: nat, r: Role)
    requires AllValid(cs) && Inv(cs, s) && Step(cs, s, t, sid, r) && NextAct(cs[sid], r, At(s.sessions[sid], r)).Recv?
    ensures var p := At(s.sessions[sid], r);
            && p.pc < 9 && Sender(p.pc) == Opposite(r) && At(s.sessions[sid], Opposite(r)).pc > p.pc
            && At(t.sessions[sid], r) == AfterRecv(p, Message(cs[sid], p.pc)) && t.store == s.store
  {
    hide Valid, NextAct, Message, TopicOf, IndexOf;
    var c, x := cs[sid], s.sessions[sid];
    var p := At(x, r);
    ActExpected(c, r, p);
    RecvKeeps(c, sid, x, s.store, r);
    assert StoredOk(c, sid, x, s.store, p.pc);
  }

  predicate Finished<E>(s: Session<E>) {
    s.g.pc >= 9 && s.e.pc >= 9
  }

  /** No session that is not finished is stuck: the party that is behind, or the
      sender of the next message, can move. */
  lemma NotStuck<E(!new)>(cs: map<nat, Config<E>>, s: System<E>, sid: nat)
    requires AllValid(cs) && Inv(cs, s) && sid in cs && !Finished(s.sessions[sid])
    ensures exists r, t :: Step(cs, s, t, sid, r)
  {
    hide Valid, NextAct, Message, TopicOf, IndexOf, Step, StoredOk, Got;
    var c, x := cs[sid], s.sessions[sid];
    var r := if x.g.pc < x.e.pc then Role.G else if x.e.pc < x.g.pc then Role.E else Sender(x.g.pc);
    var p := At(x, r);
    assert StoredOk(c, sid, x, s.store, p.pc);
    CanMove(cs, s, sid, r);
  }

  /** A party can send at its turn, and receive what its peer is past. */
  lemma CanMove<E(!new)>(cs: map<nat, Config<E>>, s: System<E>, sid: nat, r: Role)
    requires AllValid(cs) && Inv(cs, s) && sid in cs && At(s.sessions[sid], r).pc < 9
    requires var m := At(s.sessions[sid], r).pc; Sender(m) == r || m < At(s.sessions[sid], Sender(m)).pc
    ensures exists t :: Step(cs, s, t, sid, r)
  {
    hide Valid, NextAct, Message, TopicOf, IndexOf, Got, SenderLeads;
    var c, x := cs[sid], s.sessions[sid];
    var p := At(x, r);
    ActExpected(c, r, p);
    if Sender(p.pc) == r {
      var t := System(s.sessions[sid := Put(x, r, AfterSend(p))], s.store[SendIndex(sid, r, p, TopicOf(p.pc)) := Message(c, p.pc)]);
      assert Step(cs, s, t, sid, r);
    } else {
      RecvKeeps(c, sid, x, s.store, r);
      assert StoredOk(c, sid, x, s.store, p.pc);
      var t := System(s.sessions[sid := Put(x, r, AfterRecv(p, s.store[IndexOf(sid, p.pc)]))], s.store);
      assert Step(cs, s, t, sid, r);
    }
  }

  /** The messages that the parties of the listed sessions are past. */
  function Passed<E>(s: System<E>, sids: seq<nat>): nat
    requires forall i :: 0 <= i < |sids| ==> sids[i] in s.sessions
  {
    if sids == [] then 0
    else
      var x := s.sessions[sids[|sids| - 1]];
      Passed(s, sids[..|sids| - 1]) + x.g.pc + x.e.pc
  }

  ghost predicate Lists<E>(sids: seq<nat>, cs: map<nat, Config<E>>) {
    && (forall i :: 0 <= i < |sids| ==> sids[i] in cs)
    && (forall i, j :: 0 <= i < j < |sids| ==> sids[i] != sids[j])
    && (forall sid :: sid in cs ==> sid in sids)
  }

  lemma {:induction false} StepPasses<E>(s: System<E>, t: System<E>, sid: nat, sids: seq<nat>)
    requires s.sessions.Keys == t.sessions.Keys && sid in s.sessions
    requires forall i :: 0 <= i < |sids| ==> sids[i] in s.sessions
    requires forall i, j :: 0 <= i < j < |sids| ==> sids[i] != sids[j]
    requires forall o :: o in s.sessions && o != sid ==> t.sessions[o] == s.sessions[o]
    requires t.sessions[sid].g.pc + t.sessions[sid].e.pc == s.sessions[sid].g.pc + s.sessions[sid].e.pc + 1
    ensures Passed(t, sids) == Passed(s, sids) + if sid in sids then 1 else 0
  {
    if sids != [] {
      var n := |sids| - 1;
      StepPasses(s, t, sid, sids[..n]);
      assert sids == sids[..n] + [sids[n]];
    }
  }

  lemma {:induction false} NonePassed<E>(s: System<E>, sids: seq<nat>)
    requires forall i :: 0 <= i < |sids| ==> sids[i] in s.sessions && s.sessions[sids[i]].g.pc == s.sessions[sids[i]].e.pc == 0
    ensures Passed(s, sids) == 0
  {
    if sids != [] {
      NonePassed(s, sids[..|sids| - 1]);
    }
  }

  lemma {:induction false} PassedBound<E>(s: System<E>, sids: seq<nat>)
    requires forall i :: 0 <= i < |sids| ==> sids[i] in s.sessions && s.sessions[sids[i]].g.pc <= 9 && s.sessions[sids[i]].e.pc <= 9
    ensures Passed(s, sids) <= 18 * |sids|
  {
    if sids != [] {
      PassedBound(s, sids[..|sids| - 1]);
    }
  }

  /** Every step of a run takes some party past one message, so a run over n
      sessions has at most 18 n steps; with NotStuck, a run that cannot go on
      has finished every session. */
  lemma {:induction false} RunsEnd<E(!new)>(cs: map<nat, Config<E>>, trace: seq<System<E>>, sids: seq<nat>, i: nat)
    requires AllValid(cs) && Run(cs, trace) && i < |trace| && Lists(sids, cs)
    ensures trace[i].sessions.Keys == cs.Keys
    ensures i == Passed(trace[i], sids) <= 18 * |sids|
    decreases i
  {
    hide Valid, SessionOk, Step, NextAct;
    RunsKeep(cs, trace, i);
    forall k | 0 <= k < |sids|
      ensures trace[i].sessions[sids[k]].g.pc <= 9 && trace[i].sessions[sids[k]].e.pc <= 9
    {
      OpenSession(cs[sids[k]], sids[k], trace[i].sessions[sids[k]], trace[i].store);
    }
    PassedBound(trace[i], sids);
    if i == 0 {
      NonePassed(trace[0], sids);
    } else {
      RunsEnd(cs, trace, sids, i - 1);
      assert Moves(cs, trace[i - 1], trace[i - 1 + 1]);
      var sid, r :| Step(cs, trace[i - 1], trace[i], sid, r);
      StepMoves(cs, trace[i - 1], trace[i], sid, r);
      StepPasses(trace[i - 1], trace[i], sid, sids);
    }
  }

  lemma StepMoves<E>(cs: map<nat, Config<E>>, s: System<E>, t: System<E>, sid: nat, r: Role)
    requires Step(cs, s, t, sid, r)
    ensures sid in cs && sid in s.sessions && t.sessions.Keys == s.sessions.Keys
    ensures forall o :: o in s.sessions && o != sid ==> t.sessions[o] == s.sessions[o]
    ensures t.sessions[sid].g.pc + t.sessions[sid].e.pc == s.sessions[sid].g.pc + s.sessions[sid].e.pc + 1
  {
    hide NextAct;
  }

  /** IO.Split of the result integer. */
  ghost function SplitResult(c: Circuit, v: nat): seq<nat> {
    SplitBits(Widths(c.outputs), ToBits(v, Size(c.outputs)))
  }

  /** What Garbler returns. */
  ghost function GarblerResult<E(!new)>(c: Config<E>, p: Party<E>): Result<seq<nat>>
    requires Valid(c)
  {
    if p.pc < 9 || |p.got| != 3 || !p.got[2].ResultLabels? then Err
    else
      var bits := DecodeLabels(OutputPairs(c), p.got[2].labels);
      if bits.Err? then Err else Ok(SplitResult(c.circ, FromBits(bits.value)))
  }

  /** What Evaluator returns. */
  ghost function EvaluatorResult<E(!new)>(c: Config<E>, p: Party<E>): Result<seq<nat>>
    requires Valid(c)
  {
    if p.pc < 9 || |p.got| != 6 || !p.got[5].ResultBits? then Err else Ok(SplitResult(c.circ, p.got[5].value))
  }

  /** Every finished session leaves both parties with Compute's outputs. */
  lemma BothHaveResult<E(!new)>(cs: map<nat, Config<E>>, s: System<E>, sid: nat)
    requires AllValid(cs) && Inv(cs, s) && sid in cs && Finished(s.sessions[sid])
    ensures GarblerResult(cs[sid], s.sessions[sid].g) == Ok(Computed(cs[sid]))
    ensures EvaluatorResult(cs[sid], s.sessions[sid].e) == Ok(Computed(cs[sid]))
  {
    hide Valid, Computed, GarblerResult, EvaluatorResult, StoredOk, SenderLeads;
    var c, x := cs[sid], s.sessions[sid];
    OpenSession(c, sid, x, s.store);
    GarblerHasResult(c, x.g);
    EvaluatorHasResult(c, x.e);
  }

  /** The output values that Compute splits its result into. */
  ghost function Computed<E(!new)>(c: Config<E>): seq<nat>
    requires Valid(c)
  {
    SplitBits(Widths(c.circ.outputs), OutputBits(c))
  }

  lemma GarblerHasResult<E(!new)>(c: Config<E>, p: Party<E>)
    requires Valid(c) && PartyOk(c, Role.G, p) && p.pc >= 9
    ensures GarblerResult(c, p) == Ok(Computed(c))
  {
    hide Valid, Widths, ToBits, FromBits, DecodeLabels, OutputPairs, OutputBits, Got, IdealLabels, IdealPoints, IdealCiphertexts, GarbledBy, Setup;
    hide Size, Evaluated, StartWires, ChosenBy, SplitBits;
    GotGarbler(c);
    LastGot(c);
    LabelsDecode(c);
    NumberOfBits(OutputBits(c));
  }

  lemma EvaluatorHasResult<E(!new)>(c: Config<E>, p: Party<E>)
    requires Valid(c) && PartyOk(c, Role.E, p) && p.pc >= 9
    ensures EvaluatorResult(c, p) == Ok(Computed(c))
  {
    hide Valid, Widths, ToBits, FromBits, OutputPairs, OutputBits, Got, IdealLabels, IdealPoints, IdealCiphertexts, GarbledBy, Setup;
    hide Size, Evaluated, StartWires, ChosenBy, SplitBits;
    GotEvaluator(c);
    NumberOfBits(OutputBits(c));
  }

  lemma LastGot<E(!new)>(c: Config<E>)
    requires Valid(c)
    ensures Got(c, Role.G, 9) == Got(c, Role.G, 8)
  {
    hide Valid, Message;
    assert Sender(8) == Role.G;
  }

  /** For arguments that are not compound these are the values on which Compute
      is defined: both integers, bit by bit. */
  lemma ResultIsCompute<E(!new)>(c: Config<E>)
    requires |c.circ.inputs| == 2 && |c.circ.inputs[0].compound| == |c.circ.inputs[1].compound| == 0
    ensures |Flatten(c.circ.inputs)| == 2 && PlainBits(c) == InputBits([c.x, c.y], Flatten(c.circ.inputs))
  {
    hide ToBits;
    TwoArguments(c.circ.inputs[0], c.circ.inputs[1], c.x, c.y);
    assert c.circ.inputs == [c.circ.inputs[0], c.circ.inputs[1]];
  }

  lemma TwoArguments(a: IOArg, b: IOArg, x: int, y: int)
    requires |a.compound| == |b.compound| == 0
    ensures Flatten([a, b]) == [a.bits, b.bits]
    ensures InputBits([x, y], [a.bits, b.bits]) == ToBits(x, a.bits) + ToBits(y, b.bits)
  {
    hide ToBits;
    assert [a, b][..1] == [a] && [a][..0] == [];
    assert Flatten([a]) == [] + [a.bits];
    var w := [a.bits, b.bits];
    assert [x, y][..1] == [x] && w[..1] == [a.bits] && [x][..0] == [] && [a.bits][..0] == [];
    assert InputBits([x], [a.bits]) == [] + ToBits(x, a.bits);
  }

  // ----- Sessions exist -----

  function Integers(): Group<int> {
    Group(0, 1, (x: int, y: int) => x + y, (x: int) => -x)
  }

  lemma {:induction false} ScaleInteger(n: nat)
    ensures Scale(Integers(), n, 1) == n
  {
    if n > 0 {
      ScaleInteger(n - 1);
    }
  }

  lemma IntegersAreAGroup()
    ensures Abelian(Integers())
  {
  }

  lemma OnesOnCurve(ones: seq<nat>, bits: seq<bool>)
    requires |ones| == |bits| && forall i :: 0 <= i < |ones| ==> ones[i] == 1
    ensures AllOnCurve(Integers(), 1, ones, bits)
  {
    hide Scale;
    forall n: nat ensures Scale(Integers(), n, 1) == n {
      ScaleInteger(n);
    }
  }

  /** What a session asks for can be had: every two-argument circuit that is fit
      for garbling has a valid session for all arguments. */
  lemma SessionsExist(c: Circuit, x: int, y: int)
    requires Runnable(c) && ReadsKept(c.gates, Size(c.inputs))
    requires |c.inputs| == 2 && Size(c.inputs) == Own(c) + Other(c)
    ensures exists s: Config<int> :: Valid(s) && s.circ == c && s.x == x && s.y == y
  {
    hide Runnable, ReadsKept, Size, Zero, Scale, ToBits, Abelian, AllOnCurve;
    IntegersAreAGroup();
    var s := Config(c, n => l => l, 0, seq(Size(c.inputs) + 1, i => Zero()), x,
                Integers(), (e, i) => Zero(), 1, seq(Other(c), i => 1), y);
    OnesOnCurve(s.scalars, Flags(s));
    assert Valid(s);
  }
}
