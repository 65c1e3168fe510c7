/**
 sc_json_writer: a streaming printer into a bounded buffer. A bit mask and a depth counter stand in
 for a stack of open containers. `Printer` is the printer it approximates, with no limits at all.
 */
module JsonWriter {
  import opened Bytes
  import opened Options
  import opened JsonText
  import opened BitMask

  /**
   The unbounded printer: its text, for each open container whether it already holds a value, the deepest
   nesting so far, and whether a formatted value could not be produced.
   */
  datatype Printer = Printer(text: Text, stack: seq<bool>, deepest: nat, failed: bool) {
    function Put(t: Text): Printer {
      this.(text := text + t)
    }

    function BeginValue(key: Option<Text>): Printer {
      var top := |stack| - 1;
      this.(text := text
                    + (if top >= 0 && stack[top] then [COMMA] else [])
                    + (if key.Some? then Quoted(key.value) + [COLON] else []),
            stack := if top >= 0 then stack[top := true] else stack)
    }

    function Open(key: Option<Text>, c: Byte): Printer {
      BeginValue(key).Put([c]).Enter()
    }

    function Enter(): Printer {
      this.(stack := stack + [false], deepest := if |stack| + 1 > deepest then |stack| + 1 else deepest)
    }

    function Close(c: Byte): Printer {
      Put([c]).(stack := if stack == [] then [] else stack[..|stack| - 1])
    }

    function Value(key: Option<Text>, t: Text): Printer {
      BeginValue(key).Put(t)
    }

    lemma ItemText()
      ensures BeginValue(None).text == if stack != [] && stack[|stack| - 1] then Put([COMMA]).text else text
    {
    }

    /** What a writer with `cap` bytes can have printed without giving up. */
    predicate Fits(cap: nat) {
      |text| < cap && deepest <= MAX_DEPTH && !failed
    }
  }

  const BLANK := Printer([], [], 0, false)

  const MAX_DEPTH := 31

  /** The has_items bits up to the depth are the stack's non-empty flags. */
  ghost predicate MaskIs(mask: bv32, stack: seq<bool>) {
    |stack| <= MAX_DEPTH && forall d: nat :: 1 <= d <= |stack| ==> MarkedAt(mask, stack, d)
  }

  ghost predicate MarkedAt(mask: bv32, stack: seq<bool>, d: nat)
    requires 1 <= d <= |stack| <= MAX_DEPTH
  {
    Has(mask, d) == stack[d - 1]
  }

  /** begin_value() marks the innermost container as non-empty. */
  lemma MarkTop(mask: bv32, stack: seq<bool>)
    requires MaskIs(mask, stack) && stack != []
    ensures MaskIs(mask | Bit(|stack|), stack[|stack| - 1 := true])
  {
    hide Bit, Meets, Has;
    var mask', stack' := mask | Bit(|stack|), stack[|stack| - 1 := true];
    forall d: nat | 1 <= d <= |stack| ensures MarkedAt(mask', stack', d) {
      SetBit(mask, |stack|, d);
      assert MarkedAt(mask, stack, d);
    }
  }

  /** begin_object() and begin_array() enter a container that is still empty. */
  lemma PushEmpty(mask: bv32, stack: seq<bool>)
    requires MaskIs(mask, stack) && |stack| < MAX_DEPTH
    ensures MaskIs(Without(mask, Bit(|stack| + 1)), stack + [false])
  {
    hide Bit, Meets, Has;
    var mask', stack' := Without(mask, Bit(|stack| + 1)), stack + [false];
    forall d: nat | 1 <= d <= |stack| + 1 ensures MarkedAt(mask', stack', d) {
      ClearBit(mask, |stack| + 1, d);
      assert d <= |stack| ==> MarkedAt(mask, stack, d);
    }
  }

  lemma Pop(mask: bv32, stack: seq<bool>)
    requires MaskIs(mask, stack) && stack != []
    ensures MaskIs(mask, stack[..|stack| - 1])
  {
    hide Has;
    var stack' := stack[..|stack| - 1];
    forall d: nat | 1 <= d <= |stack'| ensures MarkedAt(mask, stack', d) {
      assert MarkedAt(mask, stack, d);
    }
  }

  lemma PutPut(p: Printer, a: Text, b: Text)
    ensures p.Put(a).Put(b) == p.Put(a + b)
  {
    assert p.text + a + b == p.text + (a + b);
  }

  class Writer {
    const buf: array<Byte>
    var pos: nat
    var overflow: bool
    var depth: nat
    var hasItems: bv32
    /** What the unbounded printer has made of the same calls. */
    ghost var ideal: Printer

    /** The buffer holds a NUL-terminated prefix of the ideal text: all of it exactly as long as everything fitted. */
    ghost predicate Valid()
      reads this, buf
    {
      && depth <= MAX_DEPTH
      && (buf.Length > 0 ==> pos < buf.Length && buf[pos] == NUL)
      && (buf.Length == 0 ==> pos == 0)
      && buf[..pos] <= ideal.text
      && overflow == !ideal.Fits(buf.Length)
      && (!overflow ==> buf[..pos] == ideal.text && depth == |ideal.stack| && MaskIs(hasItems, ideal.stack))
    }

    /** After the first overflow nothing in the buffer moves any more. */
    twostate predicate Frozen()
      reads this, buf
    {
      old(overflow) ==> overflow && pos == old(pos) && buf[..] == old(buf[..])
    }

    function Ok(): bool
      reads this
    {
      !overflow
    }

    constructor (buf: array<Byte>)
      modifies buf
      ensures Valid() && ideal == BLANK && this.buf == buf
    {
      this.buf := buf;
      pos, depth, hasItems := 0, 0, 0;
      overflow := buf.Length < 1;
      ideal := BLANK;
      new;
      if !overflow {
        buf[0] := NUL;
      }
    }

    method Reset()
      modifies this, buf
      ensures Valid() && ideal == BLANK
    {
      pos, depth, hasItems := 0, 0, 0;
      overflow := buf.Length < 1;
      if !overflow {
        buf[0] := NUL;
      }
      ideal := BLANK;
    }

    /** put(): all of `t` or nothing. */
    method Put(t: Text)
      requires Valid()
      modifies this`pos, this`overflow, this`ideal, buf
      ensures Valid() && Frozen() && ideal == old(ideal).Put(t)
      ensures overflow ==> pos == old(pos) && buf[..] == old(buf[..])
    {
      ghost var was := ideal.text;
      ideal := ideal.Put(t);
      if overflow || pos + |t| >= buf.Length {
        overflow := true;
        return;
      }
      forall i | 0 <= i < |t| {
        buf[pos + i] := t[i];
      }
      assert buf[..pos + |t|] == buf[..pos] + buf[pos..pos + |t|];
      assert buf[pos..pos + |t|] == t;
      assert buf[..pos] == old(buf[..pos]);
      pos := pos + |t|;
      buf[pos] := NUL;
      assert buf[..pos] == was + t;
    }

    method PutEscapedByte(c: Byte)
      requires Valid()
      modifies this`pos, this`overflow, this`ideal, buf
      ensures Valid() && Frozen() && ideal == old(ideal).Put(EscapeByte(c))
    {
      if c == QUOTE {
        Put([BACKSLASH, QUOTE]);
      } else if c == BACKSLASH {
        Put([BACKSLASH, BACKSLASH]);
      } else if c == LF {
        Put([BACKSLASH, LOWER_N]);
      } else if c == CR {
        Put([BACKSLASH, LOWER_R]);
      } else if c == TAB {
        Put([BACKSLASH, LOWER_T]);
      } else if c < 32 {
        Put([BACKSLASH, LOWER_U, ZERO, ZERO] + HexPair(c));
      } else {
        Put([c]);
      }
    }

    /** The ideal printer goes on where an overflow makes the writer skip the rest of a text. */
    ghost method SkipRest(p: Printer)
      requires Valid() && ideal.text <= p.text && p == ideal.(text := p.text)
      requires overflow || p == ideal
      modifies this`ideal
      ensures Valid() && ideal == p
    {
      ideal := p;
    }

    method PutEscaped(s: Text)
      requires Valid()
      modifies this`pos, this`overflow, this`ideal, buf
      ensures Valid() && Frozen() && ideal == old(ideal).Put(Quoted(s))
    {
      ghost var was := ideal;
      Put([QUOTE]);
      ghost var begun := ideal;
      var idx := 0;
      while idx < |s| && !overflow
        invariant 0 <= idx <= |s|
        invariant Valid() && Frozen() && ideal == begun.Put(Escape(s[..idx]))
      {
        EscapeSnoc(s, idx);
        PutPut(begun, Escape(s[..idx]), EscapeByte(s[idx]));
        PutEscapedByte(s[idx]);
        idx := idx + 1;
      }
      EscapeSplit(s, idx);
      PutPut(begun, Escape(s[..idx]), Escape(s[idx..]));
      SkipRest(begun.Put(Escape(s)));
      Put([QUOTE]);
      PutPut(was, [QUOTE], Escape(s));
      PutPut(was, [QUOTE] + Escape(s), [QUOTE]);
    }

    method BeginValue(key: Option<CStr>)
      requires Valid()
      modifies this`pos, this`overflow, this`ideal, this`hasItems, buf
      ensures Valid() && Frozen() && ideal == old(ideal).BeginValue(key)
    {
      BeginItem();
      if key.Some? {
        ghost var p := ideal;
        PutEscaped(key.value);
        Put([COLON]);
        PutPut(p, Quoted(key.value), [COLON]);
      }
    }

    /** The comma between two values of one container. */
    method Comma()
      requires Valid()
      modifies this`pos, this`overflow, this`ideal, buf
      ensures Valid() && Frozen() && ideal == old(ideal).(text := old(ideal).BeginValue(None).text)
    {
      ghost var was := ideal;
      assert !overflow && depth > 0 ==> MarkedAt(hasItems, was.stack, depth);
      hide Has, Quoted;
      if depth > 0 && Has(hasItems, depth) {
        Put([COMMA]);
      }
      was.ItemText();
      if old(overflow) {
        assert buf[..pos] == old(buf[..pos]) <= was.text;
        ideal := was.(text := was.BeginValue(None).text);
      }
    }

    method BeginItem()
      requires Valid()
      modifies this`pos, this`overflow, this`ideal, this`hasItems, buf
      ensures Valid() && Frozen() && ideal == old(ideal).BeginValue(None)
    {
      Comma();
      if depth > 0 {
        if !overflow {
          MarkTop(hasItems, ideal.stack);
        }
        hasItems := hasItems | Bit(depth);
      }
      ideal := old(ideal).BeginValue(None);
    }

    /** begin_object() and begin_array(). */
    method Begin(key: Option<CStr>, c: Byte)
      requires Valid()
      modifies this, buf
      ensures Valid() && Frozen() && ideal == old(ideal).Open(key, c)
    {
      BeginValue(key);
      Put([c]);
      Enter();
    }

    method Enter()
      requires Valid()
      modifies this`overflow, this`depth, this`hasItems, this`ideal
      ensures Valid() && Frozen() && ideal == old(ideal).Enter()
    {
      if !overflow && depth < MAX_DEPTH {
        PushEmpty(hasItems, ideal.stack);
      }
      hide Bit, Meets, Has;
      ideal := ideal.Enter();
      if depth >= MAX_DEPTH {
        overflow := true;
        return;
      }
      depth := depth + 1;
      hasItems := Without(hasItems, Bit(depth));
    }

    /** end_object() and end_array(). */
    method End(c: Byte)
      requires Valid()
      modifies this, buf
      ensures Valid() && Frozen() && ideal == old(ideal).Close(c)
    {
      Put([c]);
      if !overflow && depth > 0 {
        Pop(hasItems, ideal.stack);
      }
      ideal := old(ideal).Close(c);
      if depth > 0 {
        depth := depth - 1;
      }
    }

    method AddStr(key: Option<CStr>, value: Text)
      requires Valid()
      modifies this, buf
      ensures Valid() && Frozen() && ideal == old(ideal).Value(key, Quoted(value))
    {
      BeginValue(key);
      PutEscaped(value);
    }

    /** add_str() of a C string pointer, nullptr included. */
    method AddCStr(key: Option<CStr>, value: Option<CStr>)
      requires Valid()
      modifies this, buf
      ensures Valid() && Frozen()
      ensures ideal == old(ideal).Value(key, if value.Some? then Quoted(value.value) else NULL)
    {
      if value.None? {
        AddLiteral(key, NULL);
      } else {
        AddStr(key, value.value);
      }
    }

    /** add_fmt(): `formatted` is what vsnprintf would have printed without a limit, None where it fails. */
    method AddFmt(key: Option<CStr>, formatted: Option<CStr>)
      requires Valid()
      modifies this, buf
      ensures Valid() && Frozen()
      ensures formatted.None? ==> ideal == old(ideal).(failed := true)
      ensures formatted.Some? ==>
                var s: Text := formatted.value;
                ideal == old(ideal).Value(key, Quoted(if |s| < 128 then s else s[..127]))
    {
      if formatted.None? {
        ideal := ideal.(failed := true);
        overflow := true;
        return;
      }
      var s: Text := formatted.value;
      AddStr(key, if |s| < 128 then s else s[..127]);
    }

    /** add_int() and add_uint(). */
    method AddInt(key: Option<CStr>, value: int)
      requires Valid()
      modifies this, buf
      ensures Valid() && Frozen() && ideal == old(ideal).Value(key, Decimal(value))
    {
      BeginValue(key);
      Put(Decimal(value));
    }

    method AddBool(key: Option<CStr>, value: bool)
      requires Valid()
      modifies this, buf
      ensures Valid() && Frozen() && ideal == old(ideal).Value(key, if value then TRUE else FALSE)
    {
      BeginValue(key);
      if value {
        Put(TRUE);
      } else {
        Put(FALSE);
      }
    }

    /** add_null(). */
    method AddLiteral(key: Option<CStr>, literal: Text)
      requires Valid()
      modifies this, buf
      ensures Valid() && Frozen() && ideal == old(ideal).Value(key, literal)
    {
      BeginValue(key);
      Put(literal);
    }

    method AddHex(key: Option<CStr>, bytes: Text)
      requires Valid()
      modifies this, buf
      ensures Valid() && Frozen() && ideal == old(ideal).Value(key, [QUOTE] + Hex(bytes) + [QUOTE])
    {
      hide Writer.Valid;
      BeginValue(key);
      ghost var was := ideal;
      Put([QUOTE]);
      ghost var begun := ideal;
      var idx := 0;
      while idx < |bytes| && !overflow
        invariant 0 <= idx <= |bytes|
        invariant Valid() && Frozen() && ideal == begun.Put(Hex(bytes[..idx]))
      {
        ghost var p := ideal;
        Put([HexPair(bytes[idx])[0]]);
        Put([HexPair(bytes[idx])[1]]);
        PutPut(p, [HexPair(bytes[idx])[0]], [HexPair(bytes[idx])[1]]);
        HexSnoc(bytes, idx);
        PutPut(begun, Hex(bytes[..idx]), Hex([bytes[idx]]));
        idx := idx + 1;
      }
      HexSplit(bytes, idx);
      PutPut(begun, Hex(bytes[..idx]), Hex(bytes[idx..]));
      SkipRest(begun.Put(Hex(bytes)));
      Put([QUOTE]);
      PutPut(was, [QUOTE], Hex(bytes));
      PutPut(was, [QUOTE] + Hex(bytes), [QUOTE]);
    }
  }
}
