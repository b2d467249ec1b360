/** The packed word of a wire (compiler/circuits/wire.go): the output flag, the
    two value bits and the 29-bit reader count share one 32-bit word.  The other
    modules use the three fields; here every setter changes its own field and
    leaves the other two alone. */
module WireWord {
  import opened Graph

  type Word = bv32

  function OutputBits(w: Word): Word { w & 0x8000_0000 }

  function ValueBits(w: Word): Word { w & 0x6000_0000 }

  function Count(w: Word): Word { w & 0x1FFF_FFFF }

  predicate Output(w: Word) {
    OutputBits(w) != 0
  }

  /** The value field as it stands in the word. */
  function ValueField(v: Value): Word {
    match v
    case Unknown => 0
    case Zero => 0x2000_0000
    case One => 0x4000_0000
  }

  predicate HasValue(w: Word, v: Value) {
    ValueBits(w) == ValueField(v)
  }

  /** The three fields are the whole word. */
  lemma FieldsDetermineWord(u: Word, v: Word)
    requires Output(u) == Output(v) && ValueBits(u) == ValueBits(v) && Count(u) == Count(v)
    ensures u == v
  {
    OneBit(u);
    OneBit(v);
    Together(u);
    Together(v);
  }

  lemma OneBit(w: Word)
    ensures OutputBits(w) == if Output(w) then 0x8000_0000 else 0
  {
  }

  lemma Together(w: Word)
    ensures w == OutputBits(w) | ValueBits(w) | Count(w)
  {
  }

  // ----- The word after a setter -----

  function WithOutput(w: Word, output: bool): Word {
    if output then w | 0x8000_0000 else w & !0x8000_0000
  }

  function WithValue(w: Word, v: Value): Word {
    (w & !0x6000_0000) | (ValueField(v) & 0x6000_0000)
  }

  function WithNum(w: Word, num: Word): Word {
    (w & !0x1FFF_FFFF) | num
  }

  /** Exactly the output flag changes. */
  lemma OutputSet(w: Word, output: bool)
    ensures var u := WithOutput(w, output);
            Output(u) == output && ValueBits(u) == ValueBits(w) && Count(u) == Count(w)
  {
    if output {
      OutputOn(w);
    } else {
      OutputOff(w);
    }
    hide OutputBits, ValueBits, Count, Output;
  }

  lemma OutputOn(w: Word)
    ensures var u := w | 0x8000_0000; Output(u) && ValueBits(u) == ValueBits(w) && Count(u) == Count(w)
  {
  }

  lemma OutputOff(w: Word)
    ensures var u := w & !0x8000_0000; !Output(u) && ValueBits(u) == ValueBits(w) && Count(u) == Count(w)
  {
  }

  /** Exactly the value changes. */
  lemma ValueSet(w: Word, v: Value)
    ensures var u := WithValue(w, v);
            HasValue(u, v) && OutputBits(u) == OutputBits(w) && Count(u) == Count(w)
  {
    hide OutputBits, ValueBits, Count, ValueField;
    FieldFits(v);
    FieldSet(w, ValueField(v));
  }

  lemma FieldFits(v: Value)
    ensures ValueField(v) & 0x6000_0000 == ValueField(v)
  {
    match v
    case Unknown =>
    case Zero =>
    case One =>
  }

  lemma FieldSet(w: Word, f: Word)
    requires f & 0x6000_0000 == f
    ensures var u := (w & !0x6000_0000) | (f & 0x6000_0000);
            ValueBits(u) == f && OutputBits(u) == OutputBits(w) && Count(u) == Count(w)
  {
  }

  /** Exactly the count changes, when it fits in 29 bits. */
  lemma NumSet(w: Word, num: Word)
    ensures var u := WithNum(w, num);
            num <= 0x1FFF_FFFF ==> Count(u) == num && OutputBits(u) == OutputBits(w) && ValueBits(u) == ValueBits(w)
  {
  }

  /** Where the fields stand: the flag at bit 31, the value at bits 29 and 30, the
      count below. */
  lemma Layout()
    ensures WithNum(WithValue(WithOutput(0, true), Zero), 5) == 0xA000_0005
    ensures WithNum(WithValue(WithOutput(0, false), One), 0x1FFF_FFFF) == 0x5FFF_FFFF
    ensures Output(0x8000_0000) && !Output(0x7FFF_FFFF) && Count(0xFFFF_FFFF) == 0x1FFF_FFFF
    ensures HasValue(0x9FFF_FFFF, Unknown) && HasValue(0x2000_0000, Zero) && HasValue(0x4000_0000, One)
  {
  }

  class PackedWire {
    var ovnum: Word

    constructor ()
      ensures !Output(ovnum) && HasValue(ovnum, Unknown) && Count(ovnum) == 0
    {
      ovnum := 0;
    }

    method SetOutput(output: bool)
      modifies this
      ensures Output(ovnum) == output && ValueBits(ovnum) == old(ValueBits(ovnum)) && Count(ovnum) == old(Count(ovnum))
    {
      OutputSet(ovnum, output);
      hide OutputBits, ValueBits, Count, Output;
      if output {
        ovnum := ovnum | 0x8000_0000;
      } else {
        ovnum := ovnum & !0x8000_0000;
      }
    }

    method SetValue(value: Value)
      modifies this
      ensures HasValue(ovnum, value) && Output(ovnum) == old(Output(ovnum)) && Count(ovnum) == old(Count(ovnum))
    {
      ValueSet(ovnum, value);
      hide OutputBits, ValueBits, Count, ValueField, HasValue;
      ovnum := ovnum & !0x6000_0000;
      ovnum := ovnum | (ValueField(value) & 0x6000_0000);
    }

    /** The source panics when the count does not fit. */
    method SetNumOutputs(num: Word) returns (ok: bool)
      modifies this
      ensures ok <==> num <= 0x1FFF_FFFF
      ensures Count(ovnum) == if ok then num else old(Count(ovnum))
      ensures Output(ovnum) == old(Output(ovnum)) && ValueBits(ovnum) == old(ValueBits(ovnum))
    {
      NumSet(ovnum, num);
      hide OutputBits, ValueBits, Count;
      if num > 0x1FFF_FFFF {
        return false;
      }
      ovnum := ovnum & !0x1FFF_FFFF;
      ovnum := ovnum | num;
      return true;
    }

    /** The counting part of AddOutput. */
    method CountUp() returns (ok: bool)
      modifies this
      ensures ok <==> old(Count(ovnum)) < 0x1FFF_FFFF
      ensures Count(ovnum) == if ok then old(Count(ovnum)) + 1 else old(Count(ovnum))
      ensures Output(ovnum) == old(Output(ovnum)) && ValueBits(ovnum) == old(ValueBits(ovnum))
    {
      Neighbours(ovnum);
      hide OutputBits, ValueBits, Count;
      ok := SetNumOutputs(Count(ovnum) + 1);
    }

    /** RemoveOutput; below zero the count wraps, does not fit and panics. */
    method CountDown() returns (ok: bool)
      modifies this
      ensures ok <==> old(Count(ovnum)) > 0
      ensures Count(ovnum) == if ok then old(Count(ovnum)) - 1 else 0
      ensures Output(ovnum) == old(Output(ovnum)) && ValueBits(ovnum) == old(ValueBits(ovnum))
    {
      Neighbours(ovnum);
      hide OutputBits, ValueBits, Count;
      ok := SetNumOutputs(Count(ovnum) - 1);
    }
  }

  lemma Neighbours(w: Word)
    ensures Count(w) + 1 <= 0x1FFF_FFFF <==> Count(w) < 0x1FFF_FFFF
    ensures Count(w) - 1 <= 0x1FFF_FFFF <==> Count(w) > 0
  {
  }
}
