/** The bytes on the wire, written out (message.hpp, serializer.cpp). */
module WireFormat {
  import opened Types
  import opened Numbers
  import opened PatternText
  import opened Codec
  import opened Link
  import opened Service
  import opened Delivery

  lemma {:induction false} EncodeStep(x: nat, width: nat)
    requires width > 0
    ensures Encode(x, width) == [(x % 256) as char] + Encode(x / 256, width - 1)
  {
  }

  lemma Shifted(x: nat)
    ensures x / 256 / 256 == x / 0x1_0000 && x / 0x1_0000 / 256 == x / 0x100_0000
    ensures x / 0x100_0000 / 256 == x / 0x1_0000_0000
  {
  }

  /** Four bytes are the number from its least byte on. */
  lemma FourBytes(x: nat)
    ensures Encode(x, 4) == [(x % 256) as char, (x / 0x100 % 256) as char, (x / 0x1_0000 % 256) as char,
                             (x / 0x100_0000 % 256) as char]
  {
    Shifted(x);
    EncodeStep(x, 4);
    EncodeStep(x / 256, 3);
    EncodeStep(x / 0x1_0000, 2);
    EncodeStep(x / 0x100_0000, 1);
    assert Encode(x / 0x1_0000_0000, 0) == [];
  }

  /** Eight bytes are the four of its lower half and those of its upper half. */
  lemma EightBytes(x: nat)
    ensures Encode(x, 8) == Encode(x, 4) + Encode(x / 0x1_0000_0000, 4)
  {
    LowBytes(x, 4, 4);
    Shifted(x);
    FourShifts(x);
  }

  lemma FourShifts(x: nat)
    ensures Shift(x, 4) == x / 256 / 256 / 256 / 256
  {
    assert Shift(x, 4) == Shift(x / 256, 3);
    assert Shift(x / 256, 3) == Shift(x / 256 / 256, 2);
    assert Shift(x / 256 / 256, 2) == Shift(x / 256 / 256 / 256, 1);
  }

  function Shift(x: nat, k: nat): nat {
    if k == 0 then x else Shift(x / 256, k - 1)
  }

  lemma {:induction false} LowBytes(x: nat, k: nat, width: nat)
    ensures Encode(x, k + width) == Encode(x, k) + Encode(Shift(x, k), width)
  {
    if k > 0 {
      LowBytes(x / 256, k - 1, width);
      EncodeStep(x, k + width);
      EncodeStep(x, k);
    }
  }

  lemma WrapsAt8(i: int)
    ensures (i + 0x1_0000_0000) / 0x100 == i / 0x100 + 0x100_0000
  {
  }

  lemma WrapsAt16(i: int)
    ensures (i + 0x1_0000_0000) / 0x1_0000 == i / 0x1_0000 + 0x1_0000
  {
  }

  lemma WrapsAt24(i: int)
    ensures (i + 0x1_0000_0000) / 0x100_0000 == i / 0x100_0000 + 0x100
  {
  }

  lemma LowByte(a: int, q: int)
    ensures (a + 256 * q) % 256 == a % 256
  {
  }

  // The bytes of a negative number are those of its two's complement.
  lemma SignedBytes(i: Int32)
    ensures var u := ToUnsigned(i);
      && u % 256 == i % 256 && u / 0x100 % 256 == i / 0x100 % 256 && u / 0x1_0000 % 256 == i / 0x1_0000 % 256
      && u / 0x100_0000 % 256 == i / 0x100_0000 % 256
  {
    WrapsAt8(i);
    WrapsAt16(i);
    WrapsAt24(i);
    LowByte(i, 0x100_0000);
    LowByte(i / 0x100, 0x1_0000);
    LowByte(i / 0x1_0000, 0x100);
    LowByte(i / 0x100_0000, 1);
  }

  /** An int is sent as the tags 32 and 0 and its four bytes from the least on, negative ones as their
      two's complement; behind every message comes the byte 36. */
  lemma IntElemBytes(ft: FloatText, i: Int32)
    ensures Wire(ft, [TupleElemMessage(IntElem(i))]) ==
            [32 as char, 0 as char, (i % 256) as char, (i / 0x100 % 256) as char, (i / 0x1_0000 % 256) as char,
             (i / 0x100_0000 % 256) as char, 36 as char]
  {
    FourBytes(ToUnsigned(i));
    SignedBytes(i);
    WireOne(ft, TupleElemMessage(IntElem(i)));
  }

  lemma Tagged(a: Byte, b: Byte, c: Bytes)
    ensures [a] + ([b] + c) == [a, b] + c
  {
  }

  /** A double is the tags 32 and 1 and its eight bytes, ... */
  lemma DoubleBytes(ft: FloatText, d: Double)
    ensures Serialize(ft, TupleElemMessage(FloatElem(d))) == [32 as char, 1 as char] + Encode(d, 8)
  {
    Tagged(32 as char, 1 as char, Encode(d, SIZE_64));
  }

  /** ... a string the tags 32 and 2, its length in eight bytes, and its characters. */
  lemma {:induction false} StringElemBytes(ft: FloatText, s: Bytes)
    requires |s| < 0x1_0000_0000_0000_0000
    ensures Serialize(ft, TupleElemMessage(StrElem(s))) == [32 as char, 2 as char] + (Encode(|s|, 8) + s)
  {
    Tagged(32 as char, 2 as char, StringBytes(s));
    LengthFirst(s);
  }

  lemma {:induction false} LengthFirst(s: Bytes)
    requires |s| < 0x1_0000_0000_0000_0000
    ensures StringBytes(s) == Encode(|s|, 8) + s
  {
  }

  /** A pattern is the tag 8, the tag of its type, the length of its text in eight bytes, and the text: the
      operator and behind it the value, ... */
  lemma PatternBytes(ft: FloatText, p: Pattern)
    requires |WireText(ft, p)| < 0x1_0000_0000_0000_0000
    ensures var t := match p.value case IntElem(_) => 0 case FloatElem(_) => 1 case StrElem(_) => 2;
      Serialize(ft, PatternMessage(p)) ==
      [8 as char, t as char] + (Encode(|WireText(ft, p)|, 8) + WireText(ft, p))
  {
    Tagged(8 as char, ElemType(p.value), Encode(|WireText(ft, p)|, SIZE_64) + WireText(ft, p));
  }

  /** ... or a star alone. */
  lemma PatternTexts(ft: FloatText, v: TupleElem, op: Operator)
    ensures var text := match v case IntElem(i) => IntText(i) case FloatElem(d) => ft.format(d) case StrElem(s) => s;
      WireText(ft, Pattern(v, op)) ==
      match op
      case Equal => "==" + text
      case NotEqual => "!=" + text
      case GreaterThan => ">" + text
      case LessThan => "<" + text
      case NotGreaterThan => "<=" + text
      case NotLessThan => ">=" + text
      case All => "*"
  {
  }

  /** A header is the tag 64, the operation, and the number of items in four bytes; a connection message
      the tag 128 and one byte. */
  lemma HeaderBytes(ft: FloatText, op: Byte, n: UInt32, c: bool)
    ensures Serialize(ft, OperationMessage(op, n)) ==
            [64 as char, op, (n % 256) as char, (n / 0x100 % 256) as char, (n / 0x1_0000 % 256) as char,
             (n / 0x100_0000 % 256) as char]
    ensures Serialize(ft, ConnectionMessage(c)) == [128 as char, if c then 1 as char else 0 as char]
  {
    FourBytes(n);
  }

  /** The answer to a connection is 16, one byte, and the two names with their lengths in front. */
  lemma {:induction false} ResponseBytes(ft: FloatText, c: bool, w: Bytes, r: Bytes)
    requires |w| < 0x1_0000_0000_0000_0000 && |r| < 0x1_0000_0000_0000_0000
    ensures Serialize(ft, ServerConnectionResponse(c, w, r)) ==
            [16 as char, if c then 1 as char else 0 as char] + ((Encode(|w|, 8) + w) + (Encode(|r|, 8) + r))
  {
    Tagged(16 as char, if c then 1 as char else 0 as char, StringBytes(w) + StringBytes(r));
    LengthFirst(w);
    LengthFirst(r);
  }

  /** The operation of a read is 128, of an input 64, of an output 32, of a reply 16, and the items follow
      the header in their order. */
  lemma RequestBytes(p: seq<Pattern>)
    requires |p| < 0x1_0000_0000
    ensures var items: seq<Message> := seq(|p|, i requires 0 <= i < |p| => PatternMessage(p[i]));
      && CommandMessages(Read(p)) == [OperationMessage(128 as char, |p|)] + items
      && CommandMessages(Input(p)) == [OperationMessage(64 as char, |p|)] + items
  {
  }

  lemma TupleBytes(t: Tuple)
    requires |t| < 0x1_0000_0000
    ensures var items: seq<Message> := seq(|t|, i requires 0 <= i < |t| => TupleElemMessage(t[i]));
      && CommandMessages(Write(t)) == [OperationMessage(32 as char, |t|)] + items
      && ReplyMessages(Some(t)) == [OperationMessage(16 as char, |t|)] + items
  {
  }

  /** Element types from 3 on are not read, and any byte but zero means a connection. */
  lemma UnknownBytes(ft: FloatText, t: Byte, s: Bytes)
    requires t as int > 2
    ensures Deserialize(ft, [32 as char, t] + s).Failed? && Deserialize(ft, [8 as char, t] + s).Failed?
    ensures Deserialize(ft, [128 as char, t] + s) == Done(ConnectionMessage(true), s)
  {
    Behind(32 as char, t, s);
    Behind(8 as char, t, s);
    Behind(128 as char, t, s);
  }

  /** Bytes that begin no message are skipped. */
  lemma OtherBytesAreSkipped(ft: FloatText, junk: Bytes, s: Bytes)
    requires forall c :: c in junk ==>
               c as int != 8 && c as int != 16 && c as int != 32 && c as int != 64 && c as int != 128
    ensures Deserialize(ft, junk + s) == Deserialize(ft, s)
    ensures Deserialize(ft, junk) == Failed(NoMessageFound)
  {
    assert TagFree(junk) by {
      forall i | 0 <= i < |junk| ensures !IsTag(junk[i]) {
        assert junk[i] in junk;
      }
    }
    PrefixIsSkipped(ft, junk, s);
  }

  lemma Behind(tag: Byte, t: Byte, s: Bytes)
    requires IsTag(tag)
    ensures FirstTag([tag, t] + s) == 0 && ([tag, t] + s)[1..] == [t] + s && ([t] + s)[1..] == s
  {
  }
}
