/** The argument decoder: one renderer per declared type, the string builder
    with its 25-character truncation, and the string-array builder with its
    3-entry cap.

    In C each renderer snprintf's into buf at offset read_cnt and returns the
    new offset. Here the per-type renderers are functions giving the text
    they append; the routines that take the buffer (BuildString,
    BuildStringArray, GetStringArgument, GetStringArray and
    GetFunctionArguments) return it extended. A value read from the stack
    is always a whole word (GET_ARG), whatever the declared type. */
module Render {
  import opened Machine
  import opened Format
  import opened Symbols

  /** The two conversions whose text libc defines and this model leaves
      open: %p of an address and %f of the 4-byte float with these bits. */
  datatype Libc = Libc(pointer: Word -> string, float: Word -> string)

  const STRING_MAX_CHARACTERS: nat := 25
  const STRING_ARRAY_MAX_STRINGS: nat := 3

  /** GET_ARG_OFFSET: address of an argument slot. */
  function ArgAddr(bp: Word, offset: int): Word
  {
    Offset(bp, offset)
  }

  // ---------------------------------------------------------------- scalars

  /** get_char_argument: the character itself when printable, otherwise a
      backslash and the octal digits of the whole word. */
  function CharArgText(name: string, w: Word): string
  {
    "char " + name + "='" + (if IsPrint(w) then [w as char] else "\\" + Digits(w, 8)) + "'"
  }

  /** get_int_argument: %d of the word. */
  function IntArgText(name: string, w: Word): string
  {
    "int " + name + "=" + SignedDecimal(w)
  }

  /** get_float_argument: %f of the word read as a 4-byte float. */
  function FloatArgText(libc: Libc, name: string, w: Word): string
  {
    "float " + name + "=" + libc.float(w)
  }

  /** get_double_argument: also reads a 4-byte float. */
  function DoubleArgText(libc: Libc, name: string, w: Word): string
  {
    "double " + name + "=" + libc.float(w)
  }

  /** get_void_pointer_argument: "0v" and %x of the word. */
  function VoidPointerArgText(name: string, w: Word): string
  {
    "void *" + name + "=0v" + Digits(w, 16)
  }

  /** get_unknown_argument: %p of the word. */
  function UnknownArgText(libc: Libc, name: string, w: Word): string
  {
    "UNKNOWN " + name + "=" + libc.pointer(w)
  }

  /** Recovers a character from what get_char_argument put between the
      quotes: one character stands for itself, anything longer is an octal
      escape. */
  function DecodeCharBody(body: string): int
  {
    if |body| == 1 then body[0] as int
    else if |body| >= 2 then ParseDigits(body[1..], 8)
    else 0
  }

  /** The char rendering determines the word: it is one printable character
      exactly when the word is printable, and otherwise a backslash and
      octal digits; either way the quoted text decodes to the word. */
  lemma CharArgDecodes(name: string, w: Word)
    ensures var t, pre := CharArgText(name, w), "char " + name + "='";
      && |t| >= |pre| + 2 && t[..|pre|] == pre && t[|t| - 1] == '\''
      && (IsPrint(w) <==> |t| == |pre| + 2)
      && (!IsPrint(w) ==> t[|pre|] == '\\' && IsDigitString(t[|pre| + 1..|t| - 1], 8))
      && DecodeCharBody(t[|pre|..|t| - 1]) == w
  {
    var pre := "char " + name + "='";
    var body := if IsPrint(w) then [w as char] else "\\" + Digits(w, 8);
    var t := pre + body + "'";
    assert CharArgText(name, w) == t;
    assert t[|pre|..|t| - 1] == body;
    if !IsPrint(w) {
      DigitsRoundTrip(w, 8);
      assert body[1..] == Digits(w, 8);
      assert t[|pre| + 1..|t| - 1] == Digits(w, 8);
    }
  }

  /** The int rendering reads back as the word's signed 32-bit value: a
      minus sign exactly when that value is negative, then canonical
      decimal digits. */
  lemma IntArgDecodes(name: string, w: Word)
    ensures var t, pre := IntArgText(name, w), "int " + name + "=";
      && |t| > |pre| && t[..|pre|] == pre
      && (t[|pre|] == '-' <==> ToInt32(w) < 0)
      && IsDigitString(if t[|pre|] == '-' then t[|pre| + 1..] else t[|pre|..], 10)
      && ParseSigned(t[|pre|..]) == ToInt32(w)
  {
    var t, pre := IntArgText(name, w), "int " + name + "=";
    assert t[|pre|..] == SignedDecimal(w);
    SignedDecimalRoundTrip(w);
    assert t[|pre| + 1..] == SignedDecimal(w)[1..];
  }

  /** The void-pointer rendering reads back as the word, in lowercase hex. */
  lemma VoidPointerArgDecodes(name: string, w: Word)
    ensures var t, pre := VoidPointerArgText(name, w), "void *" + name + "=0v";
      t[..|pre|] == pre && IsDigitString(t[|pre|..], 16) && ParseDigits(t[|pre|..], 16) == w
  {
    var pre := "void *" + name + "=0v";
    assert VoidPointerArgText(name, w)[|pre|..] == Digits(w, 16);
    DigitsRoundTrip(w, 16);
  }

  // ---------------------------------------------------------------- strings

  /** The bytes of the C string at p, before its NUL; None when a byte up
      to and including the NUL faults. A string running past the top of the
      address space faults too: the next byte would be address 0. */
  function CString(m: Mem, p: Word): Option<seq<Byte>>
    decreases ADDRESS_SPACE - p
  {
    if p !in m.readable then None
    else if ByteAt(m, p) == 0 then Some([])
    else if p == ADDRESS_SPACE - 1 then None
    else
      match CString(m, p + 1)
      case None => None
      case Some(s) => Some([ByteAt(m, p)] + s)
  }

  /** The |s| bytes at p are readable, non-NUL and spell s, and a readable
      NUL follows them. */
  predicate TerminatedAt(m: Mem, p: Word, s: seq<Byte>)
  {
    && p + |s| < ADDRESS_SPACE
    && (forall a: Word :: p <= a <= p + |s| ==> a in m.readable)
    && (forall a: Word :: p <= a < p + |s| ==> ByteAt(m, a) == s[a - p] && s[a - p] != 0)
    && ByteAt(m, p + |s|) == 0
  }

  /** A string found at p lies readable and NUL-terminated at p. */
  lemma {:induction false} CStringTerminated(m: Mem, p: Word, s: seq<Byte>)
    requires CString(m, p) == Some(s)
    ensures TerminatedAt(m, p, s)
    decreases |s|
  {
    if s != [] {
      assert ByteAt(m, p) != 0 && p < ADDRESS_SPACE - 1;
      assert CString(m, p + 1) == Some(s[1..]);
      CStringTerminated(m, p + 1, s[1..]);
      forall a: Word | p <= a < p + |s|
        ensures ByteAt(m, a) == s[a - p] && s[a - p] != 0
      {
        if a > p {
          assert s[a - p] == s[1..][a - (p + 1)];
        }
      }
    }
  }

  /** Bytes lying readable and NUL-terminated at p are the string at p. */
  lemma {:induction false} TerminatedCString(m: Mem, p: Word, s: seq<Byte>)
    requires TerminatedAt(m, p, s)
    ensures CString(m, p) == Some(s)
    decreases |s|
  {
    if s != [] {
      assert TerminatedAt(m, p + 1, s[1..]) by {
        forall a: Word | p + 1 <= a < p + |s|
          ensures ByteAt(m, a) == s[1..][a - (p + 1)] && s[1..][a - (p + 1)] != 0
        {
          assert s[1..][a - (p + 1)] == s[a - p];
        }
      }
      TerminatedCString(m, p + 1, s[1..]);
      assert ByteAt(m, p) == s[0] != 0;
      assert [s[0]] + s[1..] == s;
    }
  }

  /** strlen's view of memory: the C string at p is s exactly when s and
      its NUL lie readable at p. */
  lemma CStringIs(m: Mem, p: Word, s: seq<Byte>)
    ensures CString(m, p) == Some(s) <==> TerminatedAt(m, p, s)
  {
    if CString(m, p) == Some(s) {
      CStringTerminated(m, p, s);
    }
    if TerminatedAt(m, p, s) {
      TerminatedCString(m, p, s);
    }
  }

  /** A string of printable bytes. */
  predicate AllPrintable(s: seq<Byte>)
  {
    forall i :: 0 <= i < |s| ==> IsPrint(s[i])
  }

  /** The characters %s copies for these bytes. */
  function Chars(s: seq<Byte>): (r: string)
    ensures |r| == |s|
  {
    seq(|s|, i requires 0 <= i < |s| => s[i] as char)
  }

  /** What build_string appends for the string pointer p. */
  function StringText(m: Mem, libc: Libc, p: Word): string
  {
    match CString(m, p)
    case None => libc.pointer(p)
    case Some(s) =>
      if !AllPrintable(s) then libc.pointer(p)
      else if |s| <= STRING_MAX_CHARACTERS then "\"" + Chars(s) + "\""
      else "\"" + Chars(s[..STRING_MAX_CHARACTERS]) + "...\""
  }

  /** The truncation law, read off the text: a readable printable string
      appears in quotes, whole when at most 25 characters long and otherwise
      as exactly its first 25 characters followed by an ellipsis; anything
      else (a fault, a non-printable byte) shows the pointer instead. */
  lemma StringTextLaw(m: Mem, libc: Libc, p: Word)
    ensures var t := StringText(m, libc, p);
      if CString(m, p).Some? && AllPrintable(CString(m, p).value) then
        var s := CString(m, p).value;
        && |t| >= 2 && t[0] == '"' && t[|t| - 1] == '"'
        && (|s| <= 25 ==> t[1..|t| - 1] == Chars(s))
        && (|s| > 25 ==> |t| == 30 && t[1..26] == Chars(s[..25]) && t[26..29] == "...")
      else t == libc.pointer(p)
  {
    if CString(m, p).Some? && AllPrintable(CString(m, p).value) {
      var s := CString(m, p).value;
      var t := StringText(m, libc, p);
      if |s| <= 25 {
        assert t == "\"" + Chars(s) + "\"";
        assert t[1..|t| - 1] == Chars(s);
      } else {
        assert t == "\"" + Chars(s[..25]) + "...\"";
        assert t[1..26] == Chars(s[..25]);
      }
    }
  }

  /** is_string_printable. None stands for a fault while reading the string
      (the strlen in the loop condition reads up to the NUL first); C does
      not return then but jumps back into build_string. */
  method IsStringPrintable(m: Mem, p: Word) returns (r: Option<bool>)
    ensures r.None? <==> CString(m, p).None?
    ensures r.Some? ==> (r.value <==> AllPrintable(CString(m, p).value))
  {
    var str := CString(m, p);
    if str.None? {
      return None;
    }
    var s := str.value;
    var flagPrintable := true;
    var i := 0;
    while i < |s|
      invariant 0 <= i <= |s|
      invariant flagPrintable
      invariant forall j :: 0 <= j < i ==> IsPrint(s[j])
    {
      if !IsPrint(s[i]) {
        flagPrintable := false;
        break;
      }
      i := i + 1;
    }
    r := Some(flagPrintable);
  }

  /** build_string: appends the string in quotes, truncated to 25
      characters, or the pointer when it is not printable or faults. A
      fault never reaches the caller. */
  method BuildString(m: Mem, libc: Libc, str: Word, buf: string) returns (out: string)
    ensures out == buf + StringText(m, libc, str)
  {
    var printable := IsStringPrintable(m, str);
    if printable.None? {
      // SIGSEGV while scanning: siglongjmp back to the sigsetjmp at line 710.
      out := buf + libc.pointer(str);
    } else if printable.value {
      var s := CString(m, str).value;
      if |s| <= STRING_MAX_CHARACTERS {
        out := buf + "\"" + Chars(s) + "\"";
      } else {
        out := buf + "\"" + Chars(s[..STRING_MAX_CHARACTERS]) + "...\"";
      }
    } else {
      out := buf + libc.pointer(str);
    }
  }

  // ---------------------------------------------------------- string arrays

  /** Address of array element k (GET_NEXT_STRING_OFFSET). */
  function SlotAddr(str: Word, k: nat): Word
  {
    Offset(str, 4 * k)
  }

  /** Text build_string_array's loop appends from element k on, when the
      last element pointer it read is prev, and the count it stops at. An
      unreadable slot prints its own address and keeps prev. */
  function Entries(m: Mem, libc: Libc, str: Word, k: nat, prev: Word): (r: (string, nat))
    requires k <= STRING_ARRAY_MAX_STRINGS
    ensures k <= r.1 <= STRING_ARRAY_MAX_STRINGS
    decreases STRING_ARRAY_MAX_STRINGS - k
  {
    if k == STRING_ARRAY_MAX_STRINGS then ("", k)
    else
      var slot := SlotAddr(str, k);
      var note := if IsAddressValid(m, slot) then "" else libc.pointer(slot);
      var cur := if IsAddressValid(m, slot) then ReadWord(m, slot) else prev;
      if cur == 0 then (note, k)
      else
        var rest := Entries(m, libc, str, k + 1, cur);
        (note + (if k != 0 then "," else "") + StringText(m, libc, cur) + rest.0, rest.1)
  }

  /** What build_string_array appends for the array at str. */
  function StringArrayText(m: Mem, libc: Libc, str: Word): string
  {
    var (body, count) := Entries(m, libc, str, 0, 0);
    var slot := SlotAddr(str, count);
    var next := if IsAddressValid(m, slot) then ReadWord(m, slot) else 0;
    "{" + body + (if count == STRING_ARRAY_MAX_STRINGS && next != 0 then ", ..." else "") + "}"
  }

  /** The elements 0..j-1 of the array, as build_string renders them. */
  predicate RenderedElements(m: Mem, libc: Libc, str: Word, texts: seq<string>)
  {
    && |texts| <= STRING_ARRAY_MAX_STRINGS
    && forall i :: 0 <= i < |texts| ==>
         IsAddressValid(m, SlotAddr(str, i)) && ReadWord(m, SlotAddr(str, i)) != 0
         && texts[i] == StringText(m, libc, ReadWord(m, SlotAddr(str, i)))
  }

  /** Comma-separated concatenation. */
  function Join(xs: seq<string>, sep: string): string
  {
    if |xs| == 0 then "" else if |xs| == 1 then xs[0] else xs[0] + sep + Join(xs[1..], sep)
  }

  /** One turn of build_string_array's loop at slot k: a NULL element
      stops the count at k after the slot's note, otherwise its text is
      appended and the loop moves on with this element as prev. */
  lemma EntriesStep(m: Mem, libc: Libc, str: Word, k: nat, prev: Word, note: string, cur: Word)
    requires k < STRING_ARRAY_MAX_STRINGS
    requires IsAddressValid(m, SlotAddr(str, k)) ==> note == "" && cur == ReadWord(m, SlotAddr(str, k))
    requires !IsAddressValid(m, SlotAddr(str, k)) ==> note == libc.pointer(SlotAddr(str, k)) && cur == prev
    ensures cur == 0 ==> Entries(m, libc, str, k, prev) == (note, k)
    ensures cur != 0 ==>
      var rest := Entries(m, libc, str, k + 1, cur);
      Entries(m, libc, str, k, prev) == (note + (if k != 0 then "," else "") + StringText(m, libc, cur) + rest.0, rest.1)
  {
  }

  /** Peeling the first text off a ","-joined tail. */
  lemma JoinCons(xs: seq<string>, k: nat)
    requires k < |xs|
    ensures "," + Join(xs[k..], ",")
         == "," + xs[k] + (if k + 1 < |xs| then "," + Join(xs[k + 1..], ",") else "")
  {
    assert xs[k..][1..] == xs[k + 1..];
    if k + 1 < |xs| {
      assert Join(xs[k..], ",") == xs[k] + "," + Join(xs[k + 1..], ",");
      Associate(xs[k], ",", Join(xs[k + 1..], ","));
      Associate(",", xs[k], "," + Join(xs[k + 1..], ","));
    } else {
      assert Join(xs[k..], ",") == xs[k];
    }
  }

  /** From slot k >= 1 on, readable non-NULL elements up to the NULL at
      slot j (or up to the cap) are appended each after a ",". */
  lemma {:induction false} EntriesOfReadableElements(m: Mem, libc: Libc, str: Word, texts: seq<string>, k: nat, prev: Word)
    requires RenderedElements(m, libc, str, texts)
    requires 1 <= k <= |texts|
    requires |texts| < STRING_ARRAY_MAX_STRINGS ==>
      IsAddressValid(m, SlotAddr(str, |texts|)) && ReadWord(m, SlotAddr(str, |texts|)) == 0
    ensures Entries(m, libc, str, k, prev) == (if k < |texts| then "," + Join(texts[k..], ",") else "", |texts|)
    decreases |texts| - k
  {
    if k < |texts| {
      var cur := ReadWord(m, SlotAddr(str, k));
      EntriesOfReadableElements(m, libc, str, texts, k + 1, cur);
      EntriesStep(m, libc, str, k, prev, "", cur);
      JoinCons(texts, k);
      EmptyConcat(",");
    } else if k < STRING_ARRAY_MAX_STRINGS {
      EntriesStep(m, libc, str, k, prev, "", 0);
    }
  }

  /** The array law: when the first j slots (j at most 3) hold readable
      non-NULL pointers and, if j < 3, slot j holds NULL, the array shows
      exactly those j strings between braces, and ", ..." is added only
      when j is 3 and a fourth readable non-NULL pointer follows. */
  lemma ArrayLaw(m: Mem, libc: Libc, str: Word, texts: seq<string>)
    requires RenderedElements(m, libc, str, texts)
    requires |texts| < STRING_ARRAY_MAX_STRINGS ==>
      IsAddressValid(m, SlotAddr(str, |texts|)) && ReadWord(m, SlotAddr(str, |texts|)) == 0
    ensures StringArrayText(m, libc, str) ==
      "{" + Join(texts, ",")
      + (if |texts| == 3 && IsAddressValid(m, SlotAddr(str, 3)) && ReadWord(m, SlotAddr(str, 3)) != 0 then ", ..." else "")
      + "}"
  {
    var e := Entries(m, libc, str, 0, 0);
    if |texts| == 0 {
      EntriesStep(m, libc, str, 0, 0, "", 0);
      assert e == ("", 0);
    } else {
      var e0 := ReadWord(m, SlotAddr(str, 0));
      EntriesOfReadableElements(m, libc, str, texts, 1, e0);
      EntriesStep(m, libc, str, 0, 0, "", e0);
      var rest := Entries(m, libc, str, 1, e0);
      assert e == ("" + "" + texts[0] + rest.0, rest.1);
      EmptyConcat(texts[0]);
      assert "" + "" + texts[0] == texts[0];
      if |texts| == 1 {
        EmptyConcat(texts[0]);
        assert e.0 == Join(texts, ",");
      } else {
        Associate(texts[0], ",", Join(texts[1..], ","));
        assert e.0 == Join(texts, ",");
      }
    }
    ArrayClose(m, libc, str, e.0, e.1);
  }

  /** An unreadable slot k >= 1 prints its own address; the element pointer
      is not re-read, so the previous element is then shown again and the
      loop goes on with it (or, had no element been read, stops there). */
  lemma UnreadableSlotRepeatsPrevious(m: Mem, libc: Libc, str: Word, k: nat, prev: Word)
    requires 1 <= k < STRING_ARRAY_MAX_STRINGS
    requires !IsAddressValid(m, SlotAddr(str, k))
    ensures prev == 0 ==> Entries(m, libc, str, k, prev) == (libc.pointer(SlotAddr(str, k)), k)
    ensures prev != 0 ==>
      var rest := Entries(m, libc, str, k + 1, prev);
      Entries(m, libc, str, k, prev)
      == (libc.pointer(SlotAddr(str, k)) + "," + StringText(m, libc, prev) + rest.0, rest.1)
  {
    EntriesStep(m, libc, str, k, prev, libc.pointer(SlotAddr(str, k)), prev);
  }

  /** The whole array when slot 1 alone is unreadable between a string in
      slot 0 and NULL in slot 2: the first string appears twice, with the
      address of slot 1 before its repetition. */
  lemma UnreadableSecondSlot(m: Mem, libc: Libc, str: Word)
    requires IsAddressValid(m, SlotAddr(str, 0)) && ReadWord(m, SlotAddr(str, 0)) != 0
    requires !IsAddressValid(m, SlotAddr(str, 1))
    requires IsAddressValid(m, SlotAddr(str, 2)) && ReadWord(m, SlotAddr(str, 2)) == 0
    ensures var s0 := StringText(m, libc, ReadWord(m, SlotAddr(str, 0)));
      StringArrayText(m, libc, str) == "{" + s0 + libc.pointer(SlotAddr(str, 1)) + "," + s0 + "}"
  {
    var e0 := ReadWord(m, SlotAddr(str, 0));
    var s0 := StringText(m, libc, e0);
    var p1 := libc.pointer(SlotAddr(str, 1));
    EntriesStep(m, libc, str, 2, e0, "", 0);
    UnreadableSlotRepeatsPrevious(m, libc, str, 1, e0);
    EntriesStep(m, libc, str, 0, 0, "", e0);
    var r1 := Entries(m, libc, str, 1, e0);
    assert r1 == (p1 + "," + s0 + "", 2);
    var r0 := Entries(m, libc, str, 0, 0);
    assert r0 == ("" + "" + s0 + r1.0, r1.1);
    assert "" + "" + s0 + (p1 + "," + s0 + "") == s0 + p1 + "," + s0;
  }

  /** build_string_array's loop from element k on, when the buffer holds
      acc and the last element pointer it read is prev: the buffer when the
      loop stops, and the count it stops at. */
  function EntriesLoop(m: Mem, libc: Libc, str: Word, k: nat, prev: Word, acc: string): (string, nat)
    requires k <= STRING_ARRAY_MAX_STRINGS
    decreases STRING_ARRAY_MAX_STRINGS - k
  {
    if k == STRING_ARRAY_MAX_STRINGS then (acc, k)
    else
      var slot := SlotAddr(str, k);
      var acc1 := if IsAddressValid(m, slot) then acc else acc + libc.pointer(slot);
      var cur := if IsAddressValid(m, slot) then ReadWord(m, slot) else prev;
      if cur == 0 then (acc1, k)
      else EntriesLoop(m, libc, str, k + 1, cur, (if k != 0 then acc1 + "," else acc1) + StringText(m, libc, cur))
  }

  /** The loop appends to the buffer exactly what Entries describes. */
  lemma {:induction false} EntriesLoopAppends(m: Mem, libc: Libc, str: Word, k: nat, prev: Word, acc: string)
    requires k <= STRING_ARRAY_MAX_STRINGS
    ensures EntriesLoop(m, libc, str, k, prev, acc)
         == (acc + Entries(m, libc, str, k, prev).0, Entries(m, libc, str, k, prev).1)
    decreases STRING_ARRAY_MAX_STRINGS - k
  {
    if k == STRING_ARRAY_MAX_STRINGS {
      EmptyConcat(acc);
    } else {
      var slot := SlotAddr(str, k);
      var note := if IsAddressValid(m, slot) then "" else libc.pointer(slot);
      var cur := if IsAddressValid(m, slot) then ReadWord(m, slot) else prev;
      var acc1 := if IsAddressValid(m, slot) then acc else acc + libc.pointer(slot);
      EmptyConcat(acc);
      assert acc1 == acc + note;
      EntriesStep(m, libc, str, k, prev, note, cur);
      if cur != 0 {
        var sep := if k != 0 then "," else "";
        var text := StringText(m, libc, cur);
        var acc2 := (if k != 0 then acc1 + "," else acc1) + text;
        var rest := Entries(m, libc, str, k + 1, cur);
        EntriesLoopAppends(m, libc, str, k + 1, cur, acc2);
        EmptyConcat(acc1);
        Associate(acc, note, sep);
        Associate(acc, note + sep, text);
        Associate(acc, note + sep + text, rest.0);
      }
    }
  }

  /** After the loop: the ", ..." marker, when due, and the closing brace
      complete the array's text after buf. */
  lemma ArrayFinish(m: Mem, libc: Libc, str: Word, buf: string, body: string, count: nat)
    requires EntriesLoop(m, libc, str, 0, 0, buf + "{") == (body, count)
    ensures var slot := SlotAddr(str, count);
      var next := if IsAddressValid(m, slot) then ReadWord(m, slot) else 0;
      if count == STRING_ARRAY_MAX_STRINGS && next != 0 then body + ", ..." + "}" == buf + StringArrayText(m, libc, str)
      else body + "}" == buf + StringArrayText(m, libc, str)
  {
    var whole := Entries(m, libc, str, 0, 0);
    EntriesLoopAppends(m, libc, str, 0, 0, buf + "{");
    ArrayClose(m, libc, str, whole.0, whole.1);
    var slot := SlotAddr(str, count);
    var next := if IsAddressValid(m, slot) then ReadWord(m, slot) else 0;
    var marker := if count == STRING_ARRAY_MAX_STRINGS && next != 0 then ", ..." else "";
    Associate(buf, "{", whole.0);
    Associate(buf, "{" + whole.0, marker);
    Associate(buf, "{" + whole.0 + marker, "}");
    EmptyConcat(body);
  }

  /** The closing part of build_string_array: the ", ..." marker and the
      brace after the entries. */
  lemma ArrayClose(m: Mem, libc: Libc, str: Word, body: string, count: nat)
    requires Entries(m, libc, str, 0, 0) == (body, count)
    ensures var slot := SlotAddr(str, count);
      var next := if IsAddressValid(m, slot) then ReadWord(m, slot) else 0;
      StringArrayText(m, libc, str) == "{" + body + (if count == STRING_ARRAY_MAX_STRINGS && next != 0 then ", ..." else "") + "}"
  {
  }

  /** build_string_array: at most three elements separated by ",", a NULL
      element ends the list, and ", ..." marks a fourth element. Slot 0 is
      readable: get_string_array checks it (line 631) before calling. */
  method BuildStringArray(m: Mem, libc: Libc, str: Word, buf: string) returns (out: string)
    requires IsAddressValid(m, str)
    ensures out == buf + StringArrayText(m, libc, str)
  {
    out := buf + "{";
    var stringCount := 0;
    var tempStr: Word := 0;  // assigned from slot 0 before its first use
    ghost var loopEnd := EntriesLoop(m, libc, str, 0, 0, out);
    while stringCount != STRING_ARRAY_MAX_STRINGS
      invariant 0 <= stringCount <= STRING_ARRAY_MAX_STRINGS
      invariant EntriesLoop(m, libc, str, stringCount, tempStr, out) == loopEnd
      decreases STRING_ARRAY_MAX_STRINGS - stringCount
    {
      var slot := SlotAddr(str, stringCount);
      if IsAddressValid(m, slot) {
        tempStr := ReadWord(m, slot);
      } else {
        out := out + libc.pointer(slot);
      }
      if tempStr == 0 {
        break;
      }
      if stringCount != 0 {
        out := out + ",";
      }
      out := BuildString(m, libc, tempStr, out);
      stringCount := stringCount + 1;
    }
    ArrayFinish(m, libc, str, buf, out, stringCount);
    var slot := SlotAddr(str, stringCount);
    if IsAddressValid(m, slot) {
      tempStr := ReadWord(m, slot);
    } else {
      tempStr := 0;
    }
    if stringCount == STRING_ARRAY_MAX_STRINGS && tempStr != 0 {
      out := out + ", ...";
    }
    out := out + "}";
  }

  // ------------------------------------------------------------- dispatch

  /** What get_function_arguments appends for argument a of the frame at bp. */
  function ArgText(m: Mem, libc: Libc, bp: Word, a: ArgDesc): string
    requires IsAddressValid(m, ArgAddr(bp, a.offset))
  {
    var w := ReadWord(m, ArgAddr(bp, a.offset));
    match a.argType
    case Char => CharArgText(a.name, w)
    case Int => IntArgText(a.name, w)
    case Float => FloatArgText(libc, a.name, w)
    case Double => DoubleArgText(libc, a.name, w)
    case String => StringArgText(m, libc, a.name, w)
    case StringArray => StringArrayArgText(m, libc, a.name, w)
    case VoidStar => VoidPointerArgText(a.name, w)
    case Unknown => UnknownArgText(libc, a.name, w)
    case Untagged(_) => ""
  }

  /** What get_string_argument appends for the pointer w. */
  function StringArgText(m: Mem, libc: Libc, name: string, w: Word): string
  {
    "char *" + name + "=" + StringText(m, libc, w)
  }

  /** What get_string_array appends for the array pointer w: the array, or
      {%p} when the pointer is not readable. */
  function StringArrayArgText(m: Mem, libc: Libc, name: string, w: Word): string
  {
    "char **" + name + "="
    + (if IsAddressValid(m, w) then StringArrayText(m, libc, w) else "{" + libc.pointer(w) + "}")
  }

  /** get_string_argument. */
  method GetStringArgument(m: Mem, libc: Libc, bp: Word, offset: int, name: string, buf: string)
    returns (out: string)
    requires IsAddressValid(m, ArgAddr(bp, offset))
    ensures out == buf + StringArgText(m, libc, name, ReadWord(m, ArgAddr(bp, offset)))
  {
    var str := ReadWord(m, ArgAddr(bp, offset));
    out := buf + "char *" + name + "=";
    out := BuildString(m, libc, str, out);
    Associate(buf, "char *" + name + "=", StringText(m, libc, str));
  }

  /** get_string_array. */
  method GetStringArray(m: Mem, libc: Libc, bp: Word, offset: int, name: string, buf: string)
    returns (out: string)
    requires IsAddressValid(m, ArgAddr(bp, offset))
    ensures out == buf + StringArrayArgText(m, libc, name, ReadWord(m, ArgAddr(bp, offset)))
  {
    var str := ReadWord(m, ArgAddr(bp, offset));
    var pre := "char **" + name + "=";
    out := buf + pre;
    if IsAddressValid(m, str) {
      out := BuildStringArray(m, libc, str, out);
      Associate(buf, pre, StringArrayText(m, libc, str));
    } else {
      out := out + "{" + libc.pointer(str) + "}";
      Associate(buf + pre, "{" + libc.pointer(str), "}");
      Associate(buf + pre, "{", libc.pointer(str));
      Associate(buf, pre, "{" + libc.pointer(str) + "}");
    }
  }

  /** get_function_arguments: dispatch on the declared type. */
  method GetFunctionArguments(m: Mem, libc: Libc, bp: Word, a: ArgDesc, buf: string)
    returns (out: string)
    requires IsAddressValid(m, ArgAddr(bp, a.offset))
    ensures out == buf + ArgText(m, libc, bp, a)
  {
    var w := ReadWord(m, ArgAddr(bp, a.offset));
    match a.argType {
      case Char => out := buf + CharArgText(a.name, w);
      case Int => out := buf + IntArgText(a.name, w);
      case Float => out := buf + FloatArgText(libc, a.name, w);
      case Double => out := buf + DoubleArgText(libc, a.name, w);
      case String => out := GetStringArgument(m, libc, bp, a.offset, a.name, buf);
      case StringArray => out := GetStringArray(m, libc, bp, a.offset, a.name, buf);
      case VoidStar => out := buf + VoidPointerArgText(a.name, w);
      case Unknown => out := buf + UnknownArgText(libc, a.name, w);
      case Untagged(_) => out := buf;
    }
  }
}
