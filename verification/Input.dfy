/** The line editor of the keyboard driver: bytes are popped from the input queue and
  * decoded as UTF-8. */
module Input {
  type Key = bv8
  type Char = bv32

  const CAPACITY: nat := 128
  const RETURN: Key := 13
  const BACKSPACE: Key := 0x08
  const DELETE: Key := 0x7F

  predicate IsUtf8(ch: Key) {
    ch & 0x80 == 0 || ch & 0xE0 == 0xC0 || ch & 0xF0 == 0xE0 || ch & 0xF8 == 0xF0
  }

  predicate IsErase(ch: Key) { ch == BACKSPACE || ch == DELETE }

  /** A Unicode scalar value. */
  predicate IsScalar(c: Char) { c < 0xD800 || 0xE000 <= c <= 0x10_FFFF }

  /** How many more bytes the decoder pops after a first byte. */
  function Following(ch: Key): (n: nat)
    ensures n <= 3
  {
    if ch & 0x80 == 0 then 0
    else if ch & 0xE0 == 0xC0 then 1
    else if ch & 0xF0 == 0xE0 then 2
    else if ch & 0xF8 == 0xF0 then 3
    else 0
  }

  function Low6(k: Key): Char { (k & 0x3F) as Char }

  function Decode2(a: Key, b: Key): Char { (((a & 0x1F) as Char) << 6) | Low6(b) }

  function Decode3(a: Key, b: Key, c: Key): Char { (((a & 0x0F) as Char) << 12) | (Low6(b) << 6) | Low6(c) }

  function Decode4(a: Key, b: Key, c: Key, d: Key): Char {
    (((a & 0x07) as Char) << 18) | (Low6(b) << 12) | (Low6(c) << 6) | Low6(d)
  }

  /** The code point assembled from the first byte and the bytes popped after it. */
  function Decode(ch: Key, more: seq<Key>): Char
    requires |more| == Following(ch)
  {
    match |more|
    case 1 => Decode2(ch, more[0])
    case 2 => Decode3(ch, more[0], more[1])
    case 3 => Decode4(ch, more[0], more[1], more[2])
    case _ => if ch & 0x80 == 0 then ch as Char else 0
  }

  /** A finished line and the keys left in the queue; or the editor still waits for a
    * key; or it has stopped on a code point that is no character. */
  datatype Outcome = Line(line: seq<Char>, rest: seq<Key>) | Waiting | Stopped

  function GetLine(keys: seq<Key>, line: seq<Char>): Outcome
    decreases |keys|
  {
    if keys == [] then Waiting
    else
      var ch, rest := keys[0], keys[1..];
      if ch == RETURN then Line(line, rest)
      else if IsErase(ch) && line != [] then GetLine(rest, line[..|line| - 1])
      else if IsUtf8(ch) then
        var n := Following(ch);
        if |rest| < n then Waiting
        else
          var c := Decode(ch, rest[..n]);
          if IsScalar(c) then GetLine(rest[n..], line + [c]) else Stopped
      else GetLine(rest, line + [ch as Char])
  }

  // ---- The driver -----------------------------------------------------------------------------

  class InputBuffer {
    var keys: seq<Key>

    constructor ()
      ensures keys == []
    {
      keys := [];
    }

    /** A key that does not fit is dropped. */
    method PushKey(key: Key)
      requires |keys| <= CAPACITY
      modifies this
      ensures keys == if |old(keys)| < CAPACITY then old(keys) + [key] else old(keys)
      ensures |keys| <= CAPACITY
    {
      if |keys| < CAPACITY {
        keys := keys + [key];
      }
    }

    method PopKey() returns (key: Key)
      requires keys != []
      modifies this
      ensures [key] + keys == old(keys)
    {
      key := keys[0];
      keys := keys[1..];
    }

    /** Nothing is returned when the keys run out. */
    method ToUtf8(ch: Key) returns (c: Char, complete: bool)
      modifies this
      ensures complete <==> |old(keys)| >= Following(ch)
      ensures complete ==> old(keys) == old(keys)[..Following(ch)] + keys && c == Decode(ch, old(keys)[..Following(ch)])
    {
      hide Decode2;
      hide Decode3;
      hide Decode4;
      c, complete := 0, |keys| >= Following(ch);
      if !complete {
        return;
      }
      if ch & 0x80 == 0 {
        c := ch as Char;
      } else if ch & 0xE0 == 0xC0 {
        c := PopOne(ch);
      } else if ch & 0xF0 == 0xE0 {
        c := PopTwo(ch);
      } else if ch & 0xF8 == 0xF0 {
        c := PopThree(ch);
      }
    }

    method PopOne(ch: Key) returns (c: Char)
      requires |keys| >= 1
      modifies this
      ensures old(keys) == old(keys)[..1] + keys && c == Decode2(ch, old(keys)[0])
    {
      c := ((ch & 0x1F) as Char) << 6;
      var k := PopKey();
      c := c | Low6(k);
    }

    method PopTwo(ch: Key) returns (c: Char)
      requires |keys| >= 2
      modifies this
      ensures old(keys) == old(keys)[..2] + keys && c == Decode3(ch, old(keys)[0], old(keys)[1])
    {
      c := ((ch & 0x0F) as Char) << 12;
      var k := PopKey();
      c := c | (Low6(k) << 6);
      k := PopKey();
      c := c | Low6(k);
    }

    method PopThree(ch: Key) returns (c: Char)
      requires |keys| >= 3
      modifies this
      ensures old(keys) == old(keys)[..3] + keys && c == Decode4(ch, old(keys)[0], old(keys)[1], old(keys)[2])
    {
      c := ((ch & 0x07) as Char) << 18;
      var k := PopKey();
      c := c | (Low6(k) << 12);
      k := PopKey();
      c := c | (Low6(k) << 6);
      k := PopKey();
      c := c | Low6(k);
    }

    method ReadLine() returns (r: Outcome)
      modifies this
      ensures r == GetLine(old(keys), [])
      ensures r.Line? ==> keys == r.rest
    {
      var line: seq<Char> := [];
      while keys != []
        invariant GetLine(keys, line) == GetLine(old(keys), [])
        decreases |keys|
      {
        ghost var before := keys;
        var ch := PopKey();
        assert before[0] == ch && before[1..] == keys;
        if ch == RETURN {
          return Line(line, keys);
        } else if IsErase(ch) && line != [] {
          line := line[..|line| - 1];
        } else if IsUtf8(ch) {
          ghost var rest := keys;
          var c, complete := ToUtf8(ch);
          if !complete {
            return Waiting;
          }
          assert rest[Following(ch)..] == keys;
          if !IsScalar(c) {
            return Stopped;
          }
          line := line + [c];
        } else {
          line := line + [ch as Char];
        }
      }
      r := Waiting;
    }
  }

  // ---- UTF-8 ------------------------------------------------------------------------------------

  function Lead2(c: Char): Key { ((c >> 6) & 0xFF) as Key | 0xC0 }

  function Lead3(c: Char): Key { ((c >> 12) & 0xFF) as Key | 0xE0 }

  function Lead4(c: Char): Key { ((c >> 18) & 0xFF) as Key | 0xF0 }

  function Tail(c: Char): Key { (c & 0x3F) as Key | 0x80 }

  function Tail6(c: Char): Key { ((c >> 6) & 0x3F) as Key | 0x80 }

  function Tail12(c: Char): Key { ((c >> 12) & 0x3F) as Key | 0x80 }

  /** The encoding of a scalar value: the bit patterns of section 3 of RFC 3629. */
  function Encode(c: Char): (bytes: seq<Key>)
    requires IsScalar(c)
    ensures 1 <= |bytes| <= 4
  {
    if c < 0x80 then [c as Key]
    else if c < 0x800 then [Lead2(c), Tail(c)]
    else if c < 0x1_0000 then [Lead3(c), Tail6(c), Tail(c)]
    else [Lead4(c), Tail12(c), Tail6(c), Tail(c)]
  }

  lemma TwoBytes(c: Char)
    requires 0x80 <= c < 0x800
    ensures var a := Lead2(c);
      Following(a) == 1 && a > 0x7F && Decode2(a, Tail(c)) == c
  {
  }

  lemma ThreeBytes(c: Char)
    requires 0x800 <= c < 0x1_0000
    ensures var a := Lead3(c);
      Following(a) == 2 && a > 0x7F && Decode3(a, Tail6(c), Tail(c)) == c
  {
  }

  lemma FourBytes(c: Char)
    requires 0x1_0000 <= c <= 0x10_FFFF
    ensures var a := Lead4(c);
      Following(a) == 3 && a > 0x7F && Decode4(a, Tail12(c), Tail6(c), Tail(c)) == c
  {
  }

  lemma OneByte(c: Char)
    requires c < 0x80
    ensures Following(c as Key) == 0 && c as Key <= 0x7F && (c as Key) as Char == c
  {
  }

  lemma FollowingIsUtf8(ch: Key)
    requires Following(ch) > 0 || ch <= 0x7F
    ensures IsUtf8(ch)
  {
  }

  /** The decoder inverts the encoding, whatever its length. */
  lemma DecodesWhatWasEncoded(c: Char)
    requires IsScalar(c)
    ensures var bytes := Encode(c);
      && IsUtf8(bytes[0]) && Following(bytes[0]) == |bytes| - 1 && Decode(bytes[0], bytes[1..]) == c
      && (c < 0x80 ==> bytes[0] == c as Key) && (c >= 0x80 ==> bytes[0] > 0x7F)
  {
    hide Decode2;
    hide Decode3;
    hide Decode4;
    hide Lead2;
    hide Lead3;
    hide Lead4;
    hide Tail;
    hide Tail6;
    hide Tail12;
    hide Following;
    hide IsUtf8;
    if c < 0x80 {
      OneByte(c);
    } else if c < 0x800 {
      TwoBytes(c);
    } else if c < 0x1_0000 {
      ThreeBytes(c);
    } else {
      FourBytes(c);
    }
    FollowingIsUtf8(Encode(c)[0]);
  }

  // ---- Which byte sequences the decoder is right about ------------------------------------------

  predicate IsTail(k: Key) { 0x80 <= k <= 0xBF }

  /** The well-formed sequences: the syntax of section 4 of RFC 3629. */
  predicate WellFormed(bytes: seq<Key>) {
    match |bytes|
    case 1 => bytes[0] <= 0x7F
    case 2 => 0xC2 <= bytes[0] <= 0xDF && IsTail(bytes[1])
    case 3 => WellFormed3(bytes[0], bytes[1]) && IsTail(bytes[1]) && IsTail(bytes[2])
    case 4 => WellFormed4(bytes[0], bytes[1]) && IsTail(bytes[1]) && IsTail(bytes[2]) && IsTail(bytes[3])
    case _ => false
  }

  predicate WellFormed3(a: Key, b: Key) {
    (a == 0xE0 && 0xA0 <= b) || 0xE1 <= a <= 0xEC || (a == 0xED && b <= 0x9F) || 0xEE <= a <= 0xEF
  }

  predicate WellFormed4(a: Key, b: Key) {
    (a == 0xF0 && 0x90 <= b) || 0xF1 <= a <= 0xF3 || (a == 0xF4 && b <= 0x8F)
  }

  lemma Right2(a: Key, b: Key)
    requires Following(a) == 1
    ensures var c := Decode2(a, b);
      c < 0x800 && (c >= 0x80 <==> 0xC2 <= a <= 0xDF) && Lead2(c) == a && (Tail(c) == b <==> IsTail(b))
  {
  }

  lemma Right3Bits(a: Key, b: Key, d: Key)
    requires Following(a) == 2
    ensures var c := Decode3(a, b, d);
      Lead3(c) == a && (Tail6(c) == b <==> IsTail(b)) && (Tail(c) == d <==> IsTail(d))
  {
  }

  lemma Right3Range(a: Key, b: Key, d: Key)
    requires Following(a) == 2
    ensures IsTail(b) ==> (IsMiddle(Decode3(a, b, d)) <==> WellFormed3(a, b))
  {
  }

  /** The characters that take four bytes. */
  predicate IsWide(c: Char) { 0x1_0000 <= c <= 0x10_FFFF }

  /** The characters that take three. */
  predicate IsMiddle(c: Char) { 0x800 <= c < 0xD800 || 0xE000 <= c < 0x1_0000 }

  lemma Right4Bits(a: Key, b: Key, d: Key, e: Key)
    requires Following(a) == 3
    ensures var c := Decode4(a, b, d, e);
      && Lead4(c) == a
      && (Tail12(c) == b <==> IsTail(b)) && (Tail6(c) == d <==> IsTail(d)) && (Tail(c) == e <==> IsTail(e))
  {
  }

  lemma Right4Range(a: Key, b: Key, d: Key, e: Key)
    requires Following(a) == 3
    ensures IsTail(b) ==> (IsWide(Decode4(a, b, d, e)) <==> WellFormed4(a, b))
  {
  }

  lemma RightIff1(a: Key)
    requires IsUtf8(a) && Following(a) == 0
    ensures Decode(a, []) == a as Char && IsScalar(a as Char) && Encode(a as Char) == [a] && WellFormed([a])
  {
    Right1(a);
    Encoded1(a as Char, [a]);
  }

  lemma RightIff2(a: Key, b: Key)
    requires Following(a) == 1
    ensures var c := Decode2(a, b); IsScalar(c) && Encode(c) == [a, b] <==> WellFormed([a, b])
  {
    hide Decode2;
    hide Lead2;
    hide Lead3;
    hide Lead4;
    hide Tail;
    hide Tail6;
    hide Tail12;
    hide Encode;
    hide IsTail;
    Right2(a, b);
    Encoded2(Decode2(a, b), [a, b]);
  }

  lemma RightIff3(a: Key, b: Key, d: Key)
    requires Following(a) == 2
    ensures IsScalar(Decode3(a, b, d)) && Encode(Decode3(a, b, d)) == [a, b, d] <==> WellFormed([a, b, d])
  {
    hide Decode3;
    hide Lead2;
    hide Lead3;
    hide Lead4;
    hide Tail;
    hide Tail6;
    hide Tail12;
    hide Encode;
    hide IsTail;
    hide WellFormed3;
    hide IsScalar;
    hide IsMiddle;
    hide Following;
    Right3Bits(a, b, d);
    hide WellFormed;
    Encoded3(Decode3(a, b, d), a, b, d);
    WellFormedOf3(a, b, d);
    Right3Range(a, b, d);
  }

  lemma RightIff4(a: Key, b: Key, d: Key, e: Key)
    requires Following(a) == 3
    ensures IsScalar(Decode4(a, b, d, e)) && Encode(Decode4(a, b, d, e)) == [a, b, d, e] <==> WellFormed([a, b, d, e])
  {
    hide Decode4;
    hide Lead2;
    hide Lead3;
    hide Lead4;
    hide Tail;
    hide Tail6;
    hide Tail12;
    hide Encode;
    hide IsTail;
    hide WellFormed4;
    hide IsScalar;
    hide IsWide;
    hide Following;
    Right4Bits(a, b, d, e);
    hide WellFormed;
    Encoded4(Decode4(a, b, d, e), a, b, d, e);
    WellFormedOf4(a, b, d, e);
    Right4Range(a, b, d, e);
  }

  /** The character that the editor makes of a first byte and those it pops: bytes that
    * start no sequence are taken as they are. */
  function Accepted(ch: Key, more: seq<Key>): Char
    requires |more| == Following(ch)
  {
    if IsUtf8(ch) then Decode(ch, more) else ch as Char
  }

  /** The editor does not look at the marks of the bytes it pops. What it makes of a
    * sequence is the character that the sequence encodes exactly when the sequence is
    * well formed. */
  lemma AcceptsRightIffWellFormed(ch: Key, more: seq<Key>)
    requires |more| == Following(ch)
    ensures IsScalar(Accepted(ch, more)) && Encode(Accepted(ch, more)) == [ch] + more <==> WellFormed([ch] + more)
  {
    hide Decode2;
    hide Decode3;
    hide Decode4;
    hide IsScalar;
    hide Encode;
    hide WellFormed;
    if !IsUtf8(ch) {
      assert [ch] + more == [ch];
      RightIffLone(ch);
    } else if |more| == 0 {
      assert more == [] && [ch] + more == [ch];
      RightIff1(ch);
    } else if |more| == 1 {
      assert [ch] + more == [ch, more[0]];
      RightIff2(ch, more[0]);
    } else if |more| == 2 {
      assert [ch] + more == [ch, more[0], more[1]];
      RightIff3(ch, more[0], more[1]);
    } else {
      assert [ch] + more == [ch, more[0], more[1], more[2]];
      RightIff4(ch, more[0], more[1], more[2]);
    }
  }

  lemma RightIffLone(a: Key)
    requires !IsUtf8(a)
    ensures IsScalar(a as Char) && |Encode(a as Char)| == 2 && !WellFormed([a])
  {
  }

  // ---- When the editor stops the kernel -------------------------------------------------------------

  /** A surrogate, in three or in four bytes, or a code point beyond the last one. */
  predicate IsBad(ch: Key, more: seq<Key>) {
    (|more| == 2 && IsBad3(ch, more[0])) || (|more| == 3 && IsBad4(ch, more[0], more[1]))
  }

  predicate IsBad3(a: Key, b: Key) { a == 0xED && b & 0x20 != 0 }

  predicate IsBad4(a: Key, b: Key, d: Key) {
    a >= 0xF5 || (a == 0xF4 && b & 0x30 != 0) || (a == 0xF0 && b & 0x3F == 0x0D && d & 0x20 != 0)
  }

  lemma SurrogateIff(a: Key, b: Key, d: Key)
    requires Following(a) == 2
    ensures IsScalar(Decode3(a, b, d)) <==> !IsBad3(a, b)
  {
  }

  lemma BeyondIff(a: Key, b: Key, d: Key, e: Key)
    requires Following(a) == 3
    ensures IsScalar(Decode4(a, b, d, e)) <==> !IsBad4(a, b, d)
  {
  }

  lemma ShortIsScalar(a: Key, b: Key)
    ensures IsScalar(Decode2(a, b)) && IsScalar(a as Char)
  {
  }

  /** What the editor makes of a sequence is no character exactly for these bytes. */
  lemma NoCharacterIffBad(ch: Key, more: seq<Key>)
    requires |more| == Following(ch)
    ensures IsScalar(Accepted(ch, more)) <==> !IsBad(ch, more)
  {
    hide Decode2;
    hide Decode3;
    hide Decode4;
    hide IsScalar;
    hide Following;
    hide IsBad3;
    hide IsBad4;
    ShortIsScalar(ch, if |more| > 0 then more[0] else 0);
    if |more| == 0 {
      ZeroIsScalar();
    } else if |more| == 2 {
      FollowingIsUtf8(ch);
      SurrogateIff(ch, more[0], more[1]);
    } else if |more| == 3 {
      FollowingIsUtf8(ch);
      BeyondIff(ch, more[0], more[1], more[2]);
    }
  }

  lemma ZeroIsScalar()
    ensures IsScalar(0)
  {
  }

  lemma Right1(ch: Key)
    requires IsUtf8(ch) && Following(ch) == 0
    ensures ch & 0x80 == 0 && ch <= 0x7F && ch as Char < 0x80 && (ch as Char) as Key == ch
  {
  }

  lemma Encoded1(c: Char, bytes: seq<Key>)
    requires |bytes| == 1 && c < 0x80
    ensures IsScalar(c) && (Encode(c) == bytes <==> bytes[0] == c as Key)
  {
    hide Lead2;
    hide Lead3;
    hide Lead4;
    hide Tail;
    hide Tail6;
    hide Tail12;
  }

  lemma Encoded2(c: Char, bytes: seq<Key>)
    requires |bytes| == 2 && c < 0x800
    ensures IsScalar(c)
    ensures Encode(c) == bytes <==> c >= 0x80 && bytes[0] == Lead2(c) && bytes[1] == Tail(c)
  {
    hide Lead2;
    hide Lead3;
    hide Lead4;
    hide Tail;
    hide Tail6;
    hide Tail12;
  }

  lemma Encoded3(c: Char, x: Key, y: Key, z: Key)
    ensures IsScalar(c) && Encode(c) == [x, y, z] <==>
        IsMiddle(c) && x == Lead3(c) && y == Tail6(c) && z == Tail(c)
  {
    hide Lead2;
    hide Lead3;
    hide Lead4;
    hide Tail;
    hide Tail6;
    hide Tail12;
  }

  lemma Encoded4(c: Char, x: Key, y: Key, z: Key, w: Key)
    ensures IsScalar(c) && Encode(c) == [x, y, z, w] <==>
        IsWide(c) && x == Lead4(c) && y == Tail12(c) && z == Tail6(c) && w == Tail(c)
  {
    hide Lead2;
    hide Lead3;
    hide Lead4;
    hide Tail;
    hide Tail6;
    hide Tail12;
  }

  lemma WellFormedOf3(a: Key, b: Key, d: Key)
    ensures WellFormed([a, b, d]) <==> WellFormed3(a, b) && IsTail(b) && IsTail(d)
  {
    hide WellFormed3;
    hide IsTail;
  }

  lemma WellFormedOf4(a: Key, b: Key, d: Key, e: Key)
    ensures WellFormed([a, b, d, e]) <==> WellFormed4(a, b) && IsTail(b) && IsTail(d) && IsTail(e)
  {
    hide WellFormed4;
    hide IsTail;
  }

  // ---- Lines ---------------------------------------------------------------------------------------

  /** What a user does: type a character, or press one of the two erasing keys. */
  datatype Event = Type(c: Char) | Erase(key: Key)

  /** A character that is not a key of the editor itself. */
  predicate IsText(c: Char) {
    IsScalar(c) && c != RETURN as Char && c != BACKSPACE as Char && c != DELETE as Char
  }

  ghost predicate IsEvent(e: Event) {
    match e
    case Type(c) => IsText(c)
    case Erase(key) => key == 0x08 || key == 0x7F
  }

  ghost function Sent(e: Event): seq<Key>
    requires IsEvent(e)
  {
    if e.Type? then Encode(e.c) else [e.key]
  }

  /** An erasing key takes the last character away. On an empty line it is a character
    * itself. */
  ghost function Edited(line: seq<Char>, e: Event): seq<Char> {
    match e
    case Type(c) => line + [c]
    case Erase(key) => if line == [] then [key as Char] else line[..|line| - 1]
  }

  ghost function AllSent(events: seq<Event>): seq<Key>
    requires forall e | e in events :: IsEvent(e)
  {
    if events == [] then [] else Sent(events[0]) + AllSent(events[1..])
  }

  ghost function AllEdited(line: seq<Char>, events: seq<Event>): seq<Char>
    decreases events
  {
    if events == [] then line else AllEdited(Edited(line, events[0]), events[1..])
  }

  lemma TypedIsNoKey(c: Char)
    requires IsEvent(Type(c))
    ensures Encode(c)[0] != RETURN && !IsErase(Encode(c)[0])
  {
    hide Decode;
    hide Encode;
    hide Following;
    hide IsUtf8;
    DecodesWhatWasEncoded(c);
  }

  lemma ErasingKeyIsAscii(key: Key)
    requires IsErase(key)
    ensures key != RETURN && IsUtf8(key) && Following(key) == 0
    ensures Decode(key, []) == key as Char && IsScalar(key as Char)
  {
  }

  lemma OneEvent(e: Event, line: seq<Char>, rest: seq<Key>)
    requires IsEvent(e)
    ensures GetLine(Sent(e) + rest, line) == GetLine(rest, Edited(line, e))
  {
    hide Decode;
    hide Encode;
    hide Following;
    hide IsScalar;
    var keys := Sent(e) + rest;
    if e.Type? {
      DecodesWhatWasEncoded(e.c);
      var bytes := Encode(e.c);
      TypedIsNoKey(e.c);
      assert keys[0] == bytes[0] && keys[1..] == bytes[1..] + rest;
      assert (bytes[1..] + rest)[..|bytes| - 1] == bytes[1..] && (bytes[1..] + rest)[|bytes| - 1..] == rest;
    } else {
      assert IsErase(e.key);
      ErasingKeyIsAscii(e.key);
      hide IsErase;
      hide IsUtf8;
      assert keys[0] == e.key && keys[1..] == rest;
      assert rest[..0] == [] && rest[0..] == rest;
    }
  }

  /** Whatever is typed and erased, `get_line` returns the edited line at the return key
    * and consumes exactly the bytes sent. */
  lemma {:induction false} LineIsWhatWasTyped(events: seq<Event>, line: seq<Char>, rest: seq<Key>)
    requires forall e | e in events :: IsEvent(e)
    ensures GetLine(AllSent(events) + [RETURN] + rest, line) == Line(AllEdited(line, events), rest)
    decreases events
  {
    hide IsEvent;
    hide Sent;
    hide Edited;
    hide GetLine;
    if events == [] {
      assert AllSent(events) + [RETURN] + rest == [RETURN] + rest;
      ReturnEndsLine(line, rest);
    } else {
      var keys := AllSent(events[1..]) + [RETURN] + rest;
      assert AllSent(events) + [RETURN] + rest == Sent(events[0]) + keys;
      OneEvent(events[0], line, keys);
      LineIsWhatWasTyped(events[1..], Edited(line, events[0]), rest);
    }
  }

  ghost function EncodeAll(chars: seq<Char>): seq<Key>
    requires forall i | 0 <= i < |chars| :: IsText(chars[i])
  {
    if chars == [] then []
    else
      assert IsText(chars[0]);
      Encode(chars[0]) + EncodeAll(chars[1..])
  }

  lemma TextIsScalar(c: Char)
    requires IsText(c)
    ensures IsScalar(c)
  {
  }

  lemma ReturnEndsLine(line: seq<Char>, rest: seq<Key>)
    ensures GetLine([RETURN] + rest, line) == Line(line, rest)
  {
    assert ([RETURN] + rest)[1..] == rest;
  }

  /** Text that contains none of the editor's keys comes back as it was sent. */
  lemma {:induction false} TextComesBack(chars: seq<Char>, line: seq<Char>, rest: seq<Key>)
    requires forall i | 0 <= i < |chars| :: IsText(chars[i])
    ensures GetLine(EncodeAll(chars) + [RETURN] + rest, line) == Line(line + chars, rest)
    decreases chars
  {
    hide IsText;
    hide Encode;
    hide GetLine;
    hide IsScalar;
    if chars == [] {
      assert EncodeAll(chars) + [RETURN] + rest == [RETURN] + rest;
      ReturnEndsLine(line, rest);
      assert line + chars == line;
    } else {
      var keys := EncodeAll(chars[1..]) + [RETURN] + rest;
      TextIsScalar(chars[0]);
      assert EncodeAll(chars) + [RETURN] + rest == Encode(chars[0]) + keys;
      OneEvent(Type(chars[0]), line, keys);
      TextComesBack(chars[1..], line + [chars[0]], rest);
      assert line + [chars[0]] + chars[1..] == line + chars;
    }
  }

  // ---- Lines that stop the kernel ------------------------------------------------------------------

  /** The keys that the editor takes for one character or command. */
  function UnitLength(ch: Key): nat { 1 + Following(ch) }

  ghost predicate StartsBad(keys: seq<Key>) {
    && keys != [] && keys[0] != RETURN && |keys| >= UnitLength(keys[0])
    && IsBad(keys[0], keys[1..UnitLength(keys[0])])
  }

  /** Before any return key, a sequence that is no character starts at key `n`. */
  ghost predicate BadAt(keys: seq<Key>, n: nat)
    decreases n
  {
    if n == 0 then StartsBad(keys)
    else
      && keys != [] && keys[0] != RETURN && UnitLength(keys[0]) <= n && UnitLength(keys[0]) <= |keys|
      && BadAt(keys[UnitLength(keys[0])..], n - UnitLength(keys[0]))
  }

  ghost predicate HasBad(keys: seq<Key>) { exists n: nat :: BadAt(keys, n) }

  /** The line after one character or command. */
  ghost function AfterUnit(line: seq<Char>, ch: Key, more: seq<Key>): seq<Char>
    requires |more| == Following(ch)
  {
    if IsErase(ch) && line != [] then line[..|line| - 1] else line + [Accepted(ch, more)]
  }

  lemma OneUnit(keys: seq<Key>, line: seq<Char>)
    requires keys != [] && keys[0] != RETURN && |keys| >= UnitLength(keys[0])
    ensures var n := UnitLength(keys[0]);
      GetLine(keys, line) ==
        if IsBad(keys[0], keys[1..n]) then Stopped
        else GetLine(keys[n..], AfterUnit(line, keys[0], keys[1..n]))
  {
    hide Decode;
    hide IsScalar;
    var ch, n := keys[0], UnitLength(keys[0]);
    var more := keys[1..n];
    assert keys[1..][..n - 1] == more && keys[1..][n - 1..] == keys[n..];
    NoCharacterIffBad(ch, more);
    EraseIsPlain(ch);
    LoneIsPlain(ch);
    hide Following;
    hide IsUtf8;
  }

  lemma EraseIsPlain(ch: Key)
    ensures IsErase(ch) ==> IsUtf8(ch) && Following(ch) == 0
  {
  }

  lemma LoneIsPlain(ch: Key)
    ensures !IsUtf8(ch) ==> Following(ch) == 0
  {
  }

  /** The editor stops the kernel exactly when, before the return key, it comes to a
    * sequence that is no character, whatever was typed and erased before. */
  lemma {:induction false} StopsIffBad(keys: seq<Key>, line: seq<Char>)
    ensures GetLine(keys, line).Stopped? <==> HasBad(keys)
    decreases |keys|
  {
    hide IsBad;
    hide Following;
    hide AfterUnit;
    if keys != [] && keys[0] != RETURN && |keys| >= UnitLength(keys[0]) {
      var n := UnitLength(keys[0]);
      var line' := AfterUnit(line, keys[0], keys[1..n]);
      OneUnit(keys, line);
      hide GetLine;
      StopsIffBad(keys[n..], line');
      if IsBad(keys[0], keys[1..n]) {
        assert BadAt(keys, 0);
      } else {
        BadLater(keys);
      }
    } else {
      IncompleteWaits(keys, line);
      forall n: nat ensures !BadAt(keys, n) {
      }
    }
  }

  lemma BadLater(keys: seq<Key>)
    requires keys != [] && keys[0] != RETURN && |keys| >= UnitLength(keys[0])
    requires !IsBad(keys[0], keys[1..UnitLength(keys[0])])
    ensures HasBad(keys) <==> HasBad(keys[UnitLength(keys[0])..])
  {
    hide IsBad;
    hide Following;
    var n := UnitLength(keys[0]);
    if HasBad(keys) {
      var k: nat :| BadAt(keys, k);
      BadShift(keys, k);
    }
    if HasBad(keys[n..]) {
      var k: nat :| BadAt(keys[n..], k);
      BadShift(keys, n + k);
    }
  }

  lemma BadShift(keys: seq<Key>, k: nat)
    requires keys != [] && keys[0] != RETURN && |keys| >= UnitLength(keys[0])
    requires !IsBad(keys[0], keys[1..UnitLength(keys[0])])
    ensures BadAt(keys, k) <==> k >= UnitLength(keys[0]) && BadAt(keys[UnitLength(keys[0])..], k - UnitLength(keys[0]))
  {
    hide IsBad;
    hide Following;
  }

  lemma IncompleteWaits(keys: seq<Key>, line: seq<Char>)
    requires keys == [] || keys[0] == RETURN || |keys| < UnitLength(keys[0])
    ensures !GetLine(keys, line).Stopped?
  {
    if keys != [] {
      EraseIsPlain(keys[0]);
      LoneIsPlain(keys[0]);
    }
  }
}
