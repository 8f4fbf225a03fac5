/** The printer as it runs: a growing or fixed buffer whose offset lags behind the text. */
module JsonPrinter {
  import opened Bytes
  import opened Json
  import opened JsonText
  import opened JsonNumber
  import opened ItemList
  import opened ItemTree

  /** A quoted text and its NUL behind what was there. */
  lemma Quoted(was: bytes, text: bytes, b: bytes)
    requires b == was + [QUOTE] + text + [QUOTE, 0]
    ensures var t := [QUOTE] + text + [QUOTE];
      |b| == |was| + |t| + 1 && b[..|was| + |t|] == was + t && b[|was| + |t|] == 0
  {
    var t := [QUOTE] + text + [QUOTE];
    assert b == was + t + [0];
  }

  /** An object between what opens and what closes it. */
  lemma ObjectText(was: bytes, ms: seq<Member>, format: bool, depth: nat)
    ensures var open := [LBRACE] + When(format, [NL]);
      var close := When(format, Tabs(depth)) + [RBRACE];
      var text := RenderMembers(ms, format, depth + 1);
      && Render(Object(ms), format, depth) == open + text + close
      && was + open + text == was + (open + text)
      && |open| == (if format then 2 else 1) && |close| == (if format then depth + 1 else 1)
  {
    hide RenderMembers;
  }

  class PrintBuffer {
    var buffer: array<byte>
    var offset: nat
    var depth: nat
    const noalloc: bool
    const format: bool

    /** The offset is inside the buffer, which never exceeds what ensure can ask for. */
    ghost predicate Valid()
      reads this, buffer
    {
      (offset < buffer.Length || offset == buffer.Length == 0) && buffer.Length <= INT_MAX
    }

    /** How large the buffer can become. */
    ghost function Limit(): int
      reads this
    {
      if noalloc then buffer.Length else INT_MAX
    }

    /** The text the printer has finished. */
    ghost function Written(): (t: bytes)
      requires Valid()
      reads this, buffer
      ensures |t| == offset
    {
      buffer[..offset]
    }

    /** Behind was stands text t, closed by a NUL, and the offset is somewhere in t. */
    ghost predicate Shows(was: bytes, t: bytes)
      reads this, buffer
    {
      && Valid()
      && |was| <= offset <= |was| + |t| < buffer.Length
      && buffer[..|was| + |t|] == was + t
      && buffer[|was| + |t|] == 0
    }

    constructor (buffer: array<byte>, noalloc: bool, format: bool)
      requires buffer.Length <= INT_MAX
      ensures Valid() && this.buffer == buffer && offset == 0 && depth == 0
      ensures this.noalloc == noalloc && this.format == format
    {
      this.buffer, this.noalloc, this.format := buffer, noalloc, format;
      offset, depth := 0, 0;
    }

    /** Room for needed bytes and one more behind the offset, if the limit allows it. */
    method Ensure(needed: nat) returns (ok: bool)
      requires Valid()
      modifies this`buffer
      ensures Valid() && Limit() == old(Limit()) && (buffer == old(buffer) || (!noalloc && fresh(buffer)))
      ensures ok <==> offset + needed + 1 <= Limit()
      ensures ok ==> offset + needed + 1 <= buffer.Length
      ensures Written() == old(Written())
    {
      if buffer.Length > 0 && offset >= buffer.Length {
        return false;
      }
      if needed > INT_MAX {
        return false;
      }
      var total := needed + offset + 1;
      if total <= buffer.Length {
        return true;
      }
      if noalloc {
        return false;
      }
      var size := total * 2;
      if total > INT_MAX / 2 {
        if total > INT_MAX {
          return false;
        }
        size := INT_MAX;
      }
      var grown := new byte[size];
      forall i | 0 <= i < buffer.Length {
        grown[i] := buffer[i];
      }
      assert grown[..offset] == buffer[..offset];
      buffer := grown;
      ok := true;
    }

    /** memcpy of t to position at. */
    method Put(at: nat, t: bytes)
      requires at + |t| <= buffer.Length
      modifies buffer
      ensures buffer[..at + |t|] == old(buffer[..at]) + t
      ensures forall i :: at + |t| <= i < buffer.Length ==> buffer[i] == old(buffer[i])
    {
      for i := 0 to |t|
        invariant buffer[..at + i] == old(buffer[..at]) + t[..i]
        invariant forall j :: at + |t| <= j < buffer.Length ==> buffer[j] == old(buffer[j])
      {
        buffer[at + i] := t[i];
      }
      assert t[..|t|] == t;
    }

    /** strcpy of t to the offset, which stays where it is. */
    method Strcpy(t: bytes)
      requires Valid() && offset + |t| < buffer.Length
      modifies buffer
      ensures Valid() && Shows(old(Written()), t)
    {
      Put(offset, t);
      buffer[offset + |t|] := 0;
      assert buffer[..offset + |t|] == old(Written()) + t;
    }

    /** update_offset: moves on to the NUL that closes the text printed last. */
    method UpdateOffset(ghost was: bytes, ghost t: bytes)
      requires Shows(was, t) && 0 !in t
      modifies this`offset
      ensures Valid() && Written() == was + t && offset == |was| + |t|
    {
      ghost var end := |was| + |t|;
      assert forall i :: |was| <= i < end ==> buffer[i] == t[i - |was|] by {
        forall i | |was| <= i < end
          ensures buffer[i] == t[i - |was|]
        {
          assert buffer[..end][i] == (was + t)[i];
        }
      }
      while buffer[offset] != 0
        invariant |was| <= offset <= end
        decreases end - offset
      {
        offset := offset + 1;
      }
    }

    /** Reserves needed bytes, writes t there, perhaps a NUL behind it, and moves the offset on. */
    method Append(needed: nat, t: bytes, nul: bool) returns (ok: bool)
      requires Valid() && |t| <= needed
      modifies this, buffer
      ensures Limit() == old(Limit()) && (buffer == old(buffer) || (!noalloc && fresh(buffer)))
      ensures ok <==> old(offset) + needed + 1 <= Limit()
      ensures ok ==> Valid() && depth == old(depth) && Written() == old(Written()) + t
    {
      ghost var was := Written();
      ok := Ensure(needed);
      if ok {
        Put(offset, t);
        if nul {
          buffer[offset + |t|] := 0;
        }
        offset := offset + |t|;
        assert buffer[..offset] == was + t;
      }
    }

    /** Reserves needed bytes and leaves t there behind the offset, closed by a NUL. */
    method Place(needed: nat, t: bytes) returns (ok: bool)
      requires Valid() && |t| <= needed
      modifies this, buffer
      ensures Limit() == old(Limit()) && (buffer == old(buffer) || (!noalloc && fresh(buffer)))
      ensures ok <==> old(offset) + needed + 1 <= Limit()
      ensures ok ==> depth == old(depth) && offset == old(offset) && Shows(old(Written()), t)
    {
      ok := Ensure(needed);
      if ok {
        Strcpy(t);
      }
    }

    /** print_number for an integer: it is the only value that moves the offset itself. */
    method PrintNumber(d: real) returns (ok: bool)
      requires Valid() && IsInt32(d)
      modifies this, buffer
      ensures Limit() == old(Limit()) && (buffer == old(buffer) || (!noalloc && fresh(buffer)))
      ensures ok <==> old(offset) + |IntText(d.Floor)| + 2 <= Limit()
      ensures ok ==> depth == old(depth) && Shows(old(Written()), IntText(d.Floor))
    {
      hide IntText;
      var t := IntText(ValueInt(d));
      ok := Place(|t| + 1, t);
      if ok {
        offset := offset + |t|;
      }
    }

    /** print_string_ptr: counts what escaping adds, then copies or escapes. */
    method PrintString(input: CString) returns (ok: bool)
      requires Valid()
      modifies this, buffer
      ensures Limit() == old(Limit()) && (buffer == old(buffer) || (!noalloc && fresh(buffer)))
      ensures ok <==> old(offset) + |StringText(input)| + 2 <= Limit()
      ensures ok ==> depth == old(depth) && Shows(old(Written()), StringText(input))
    {
      hide EscapeText, Shows, Written;
      var extra := CountEscapes(input);
      ok := Ensure(|input| + extra + 3);
      if ok {
        PutQuoted(input, extra);
      }
    }

    /** The quoted text and its NUL, the offset left where it is. */
    method PutQuoted(input: CString, extra: nat)
      requires Valid() && offset + |EscapeText(input)| + 3 <= buffer.Length && |EscapeText(input)| == |input| + extra
      modifies buffer
      ensures Shows(old(Written()), StringText(input))
    {
      hide EscapeText;
      ghost var was := Written();
      PutContent(input, extra);
      Put(offset + 1 + |input| + extra, [QUOTE, 0]);
      Quoted(was, EscapeText(input), buffer[..offset + |input| + extra + 3]);
    }

    /** The opening quote and the content, copied whole when nothing needs escaping. */
    method PutContent(input: CString, extra: nat)
      requires offset + 1 + |EscapeText(input)| < buffer.Length && |EscapeText(input)| == |input| + extra
      modifies buffer
      ensures buffer[..offset + 1 + |EscapeText(input)|] == old(buffer[..offset]) + [QUOTE] + EscapeText(input)
    {
      hide EscapeText;
      NoEscapes(input);
      Put(offset, [QUOTE]);
      if extra == 0 {
        Put(offset + 1, input);
      } else {
        var end := PutEscaped(offset + 1, input);
      }
    }

    /** The escaping loop from position at. */
    method PutEscaped(at: nat, input: CString) returns (end: nat)
      requires at + |EscapeText(input)| < buffer.Length
      modifies buffer
      ensures end == at + |EscapeText(input)|
      ensures buffer[..end] == old(buffer[..at]) + EscapeText(input)
    {
      hide EscapeByte;
      end := at;
      ghost var done := [];
      for i := 0 to |input|
        invariant EscapeText(input) == done + EscapeText(input[i..])
        invariant end == at + |done| && buffer[..end] == old(buffer[..at]) + done
      {
        ghost var rest := EscapeText(input[i + 1..]);
        assert input[i..][1..] == input[i + 1..];
        var c := input[i];
        var t := EscapeByte(c);
        assert EscapeText(input[i..]) == t + rest;
        assert done + (t + rest) == done + t + rest;
        Put(end, t);
        end := end + |t|;
        if |t| == 6 {
          // sprintf closes what it prints with a NUL
          buffer[end] := 0;
        }
        done := done + t;
      }
      assert input[|input|..] == [];
    }

    /** Opens a container. */
    method Enter()
      requires Valid()
      modifies this`depth
      ensures depth == old(depth) + 1 && Valid() && Written() == old(Written())
    {
      depth := depth + 1;
    }

    /** Closes a container. */
    method Leave(ghost was: bytes, ghost t: bytes)
      requires depth > 0 && Shows(was, t)
      modifies this`depth
      ensures depth == old(depth) - 1 && Shows(was, t)
    {
      depth := depth - 1;
    }

    lemma ShowsJoin(was: bytes, a: bytes, b: bytes)
      requires Shows(was + a, b)
      ensures Shows(was, a + b)
    {
      assert was + a + b == was + (a + b);
    }

    /** print_value: the text of the item's value behind what was written, or failure exactly when it has no room. */
    method PrintValue(item: Item, ghost sh: Shape, ghost v: Json) returns (ok: bool)
      requires Valid() && IntTree(v) && Built(item, sh, v)
      modifies this, buffer
      ensures Limit() == old(Limit()) && (buffer == old(buffer) || (!noalloc && fresh(buffer)))
      ensures ok <==> old(offset) + |Render(v, format, old(depth))| + 2 <= Limit()
      ensures ok ==> depth == old(depth) && Shows(old(Written()), Render(v, format, old(depth)))
      decreases v, 1
    {
      hide IntText, StringText, RenderElems, RenderMembers, Built;
      KindOf(item, sh, v);
      match item.kind
      case IsNull => ok := Place(5, NULL_TEXT);
      case IsTrue => ok := Place(5, TRUE_TEXT);
      case IsFalse => ok := Place(6, FALSE_TEXT);
      case IsNumber => ok := PrintNumber(item.number);
      case IsString => ok := PrintString(item.text);
      case IsArray => ok := PrintArray(item, sh, v.elems);
      case IsObject => ok := PrintObject(item, sh, v.members);
    }

    method PrintArray(item: Item, ghost sh: Shape, ghost es: seq<Json>) returns (ok: bool)
      requires Valid() && IntTree(Array(es)) && Built(item, sh, Array(es))
      modifies this, buffer
      ensures Limit() == old(Limit()) && (buffer == old(buffer) || (!noalloc && fresh(buffer)))
      ensures ok <==> old(offset) + |Render(Array(es), format, old(depth))| + 2 <= Limit()
      ensures ok ==> depth == old(depth) && Shows(old(Written()), Render(Array(es), format, old(depth)))
      decreases es, 1
    {
      hide IntTree, RenderElems, Shows, Written, Valid, Built, Below, RootSet, Inner;
      ghost var was, text := Written(), RenderElems(es, format, depth + 1);
      Settled(sh.kids);
      ok := Append(1, [LBRACKET], false);
      if !ok {
        return;
      }
      Enter();
      ok := PrintElems(item, sh, es);
      if !ok {
        return;
      }
      ok := Place(2, [RBRACKET]);
      if ok {
        assert was + [LBRACKET] + text == was + ([LBRACKET] + text);
        ShowsJoin(was, [LBRACKET] + text, [RBRACKET]);
        Leave(was, [LBRACKET] + text + [RBRACKET]);
      }
    }

    /** The element loop: the offset is brought up to date behind every element. */
    method PrintElems(item: Item, ghost sh: Shape, ghost es: seq<Json>) returns (ok: bool)
      requires Valid() && IntTree(Array(es)) && Built(item, sh, Array(es))
      modifies this, buffer
      ensures Limit() == old(Limit()) && (buffer == old(buffer) || (!noalloc && fresh(buffer)))
      ensures !ok ==> old(offset) + |RenderElems(es, format, old(depth))| + 2 > Limit()
      ensures ok ==> Valid() && depth == old(depth)
      ensures ok ==> Written() == old(Written()) + RenderElems(es, format, old(depth))
      decreases es, 0
    {
      hide IntTree, ElemPart, RenderElems, Written, Valid, Built, Below, RootSet, Inner;
      ghost var was, d := Written(), depth;
      ghost var done, rest := [], RenderElems(es, format, d);
      Settled(sh.kids);
      FirstOf(item, sh, Array(es));
      var current := item.child;
      ghost var i := 0;
      assert es[0..] == es;
      while current != null
        invariant 0 <= i <= |es| == |sh.kids| && Valid() && depth == d && Built(item, sh, Array(es))
        invariant current == if i < |es| then sh.kids[i].root else null
        invariant Limit() == old(Limit()) && (buffer == old(buffer) || (!noalloc && fresh(buffer)))
        invariant rest == RenderElems(es[i..], format, d)
        invariant done + rest == RenderElems(es, format, d)
        invariant Written() == was + done
        decreases |es| - i
      {
        ghost var t := ElemPart(es[i], format, d, i + 1 < |es|);
        ElemAt(item, sh, es, i);
        ElemsNext(es, i, format, d);
        ok := PrintElem(current, sh.kids[i], es[i]);
        if !ok {
          return;
        }
        ElemAt(item, sh, es, i);
        rest := RenderElems(es[i + 1..], format, d);
        assert was + done + t == was + (done + t);
        assert done + (t + rest) == done + t + rest;
        done := done + t;
        current := current.next;
        i := i + 1;
      }
      ok := true;
      ElemsNext(es, i, format, d);
      assert done + [] == done;
    }

    /** An element and what separates it from the next one. */
    method PrintElem(item: Item, ghost sh: Shape, ghost e: Json) returns (ok: bool)
      requires Valid() && IntTree(e) && Built(item, sh, e)
      modifies this, buffer
      ensures Limit() == old(Limit()) && (buffer == old(buffer) || (!noalloc && fresh(buffer)))
      ensures !ok ==> old(offset) + |ElemPart(e, format, old(depth), item.next != null)| + 2 > Limit()
      ensures ok ==> Valid() && depth == old(depth)
      ensures ok ==> Written() == old(Written()) + ElemPart(e, format, old(depth), item.next != null)
      decreases e, 2
    {
      hide IntTree, Render, ElemSep, Shows, Written, Valid, Built;
      ghost var was, text := Written(), Render(e, format, depth);
      ok := PrintValue(item, sh, e);
      if !ok {
        return;
      }
      RenderNoNul(e, format, depth);
      UpdateOffset(was, text);
      if item.next != null {
        var sep := ElemSep(format);
        ok := Append(|sep| + 1, sep, true);
        assert was + text + sep == was + (text + sep);
      } else {
        assert text + [] == text;
      }
    }

    method PrintObject(item: Item, ghost sh: Shape, ghost ms: seq<Member>) returns (ok: bool)
      requires Valid() && IntTree(Object(ms)) && Built(item, sh, Object(ms))
      modifies this, buffer
      ensures Limit() == old(Limit()) && (buffer == old(buffer) || (!noalloc && fresh(buffer)))
      ensures ok <==> old(offset) + |Render(Object(ms), format, old(depth))| + 2 <= Limit()
      ensures ok ==> depth == old(depth) && Shows(old(Written()), Render(Object(ms), format, old(depth)))
      decreases ms, 3
    {
      hide IntTree, Render, RenderMembers, When, Shows, Tabs, Written, Valid, Built, Below, RootSet, Inner;
      Settled(sh.kids);
      ghost var was, text := Written(), RenderMembers(ms, format, depth + 1);
      ObjectText(was, ms, format, depth);
      var open := [LBRACE] + When(format, [NL]);
      ok := Append(|open| + 1, open, false);
      if !ok {
        return;
      }
      Enter();
      ok := PrintMembers(item, sh, ms);
      if !ok {
        return;
      }
      var close := When(format, Tabs(depth - 1)) + [RBRACE];
      ok := Place(if format then depth + 1 else 2, close);
      if ok {
        ShowsJoin(was, open + text, close);
        Leave(was, open + text + close);
      }
    }

    method PrintMembers(item: Item, ghost sh: Shape, ghost ms: seq<Member>) returns (ok: bool)
      requires Valid() && IntTree(Object(ms)) && Built(item, sh, Object(ms))
      modifies this, buffer
      ensures Limit() == old(Limit()) && (buffer == old(buffer) || (!noalloc && fresh(buffer)))
      ensures !ok ==> old(offset) + |RenderMembers(ms, format, old(depth))| + 2 > Limit()
      ensures ok ==> Valid() && depth == old(depth)
      ensures ok ==> Written() == old(Written()) + RenderMembers(ms, format, old(depth))
      decreases ms, 2
    {
      hide IntTree, RenderMember, RenderMembers, Written, Valid, Built, Below, RootSet, Inner;
      ghost var was, d := Written(), depth;
      ghost var done, rest := [], RenderMembers(ms, format, d);
      Settled(sh.kids);
      FirstOf(item, sh, Object(ms));
      var current := item.child;
      ghost var i := 0;
      assert ms[0..] == ms;
      while current != null
        invariant 0 <= i <= |ms| == |sh.kids| && Valid() && depth == d && Built(item, sh, Object(ms))
        invariant current == if i < |ms| then sh.kids[i].root else null
        invariant Limit() == old(Limit()) && (buffer == old(buffer) || (!noalloc && fresh(buffer)))
        invariant rest == RenderMembers(ms[i..], format, d)
        invariant done + rest == RenderMembers(ms, format, d)
        invariant Written() == was + done
        decreases |ms| - i
      {
        ghost var t := RenderMember(ms[i], format, d, i + 1 < |ms|);
        MemberAt(item, sh, ms, i);
        MembersNext(ms, i, format, d);
        ok := PrintMember(current, sh.kids[i], ms[i]);
        if !ok {
          return;
        }
        MemberAt(item, sh, ms, i);
        rest := RenderMembers(ms[i + 1..], format, d);
        assert was + done + t == was + (done + t);
        assert done + (t + rest) == done + t + rest;
        done := done + t;
        current := current.next;
        i := i + 1;
      }
      ok := true;
      MembersNext(ms, i, format, d);
      assert done + [] == done;
    }

    /** Indentation, name and colon of a member. */
    method PrintName(key: CString) returns (ok: bool)
      requires Valid()
      modifies this, buffer
      ensures Limit() == old(Limit()) && (buffer == old(buffer) || (!noalloc && fresh(buffer)))
      ensures !ok ==> old(offset) + |NameText(key, format, old(depth))| + 2 > Limit()
      ensures ok ==> Valid() && depth == old(depth)
      ensures ok ==> Written() == old(Written()) + NameText(key, format, old(depth))
    {
      hide StringText, Tabs, KeySep, Shows, Written, Valid;
      ghost var was := Written();
      var tabs := When(format, Tabs(depth));
      if format {
        ok := Append(depth, tabs, false);
        if !ok {
          return;
        }
      } else {
        assert was + tabs == was;
      }
      ok := PrintString(key);
      if !ok {
        return;
      }
      KeyNoNul(key);
      UpdateOffset(was + tabs, StringText(key));
      var sep := KeySep(format);
      ok := Append(|sep|, sep, false);
      assert was + tabs + StringText(key) + sep == was + (tabs + StringText(key) + sep);
    }

    /** A member and what separates it from the next one. */
    method PrintMember(item: Item, ghost sh: Shape, ghost m: Member) returns (ok: bool)
      requires Valid() && IntTree(m.value) && Built(item, sh, m.value) && item.name == m.key
      modifies this, buffer
      ensures Limit() == old(Limit()) && (buffer == old(buffer) || (!noalloc && fresh(buffer)))
      ensures !ok ==> old(offset) + |RenderMember(m, format, old(depth), item.next != null)| + 2 > Limit()
      ensures ok ==> Valid() && depth == old(depth)
      ensures ok ==> Written() == old(Written()) + RenderMember(m, format, old(depth), item.next != null)
      decreases m, 0
    {
      hide IntTree, Render, RenderMember, NameText, MemberEnd, Shows, Written, Valid, Built, Below, RootSet, Inner;
      Settled(sh.kids);
      ghost var was := Written();
      ghost var name, text := NameText(m.key, format, depth), Render(m.value, format, depth);
      MemberParts(m, format, depth, item.next != null);
      ok := PrintName(item.name);
      if !ok {
        return;
      }
      ok := PrintValue(item, sh, m.value);
      if !ok {
        return;
      }
      RenderNoNul(m.value, format, depth);
      UpdateOffset(was + name, text);
      var end := MemberEnd(format, item.next != null);
      ok := Append(|end| + 1, end, true);
      assert was + name + text + end == was + (name + text + end);
    }
  }

  const DEFAULT_BUFFER: nat := 256

  /** cJSON_Print and cJSON_PrintUnformatted: an exact copy of the text and its NUL. */
  method Print(item: Item, ghost sh: Shape, ghost v: Json, format: bool) returns (ok: bool, printed: array<byte>)
    requires IntTree(v) && Built(item, sh, v)
    ensures ok <==> |Render(v, format, 0)| + 2 <= INT_MAX
    ensures ok ==> fresh(printed) && printed[..] == Render(v, format, 0) + [0]
  {
    hide IntTree, Render, Built, Below, RootSet, Inner;
    Settled(sh.kids);
    printed := new byte[DEFAULT_BUFFER];
    var p := new PrintBuffer(printed, false, format);
    ghost var was, t := p.Written(), Render(v, format, 0);
    ok := p.PrintValue(item, sh, v);
    if ok {
      RenderNoNul(v, format, 0);
      assert was == [];
      p.UpdateOffset(was, t);
      assert p.Written() == [] + t == t;
      printed := Trimmed(p);
    }
  }

  /** The finished text and its NUL in an array of just that size. */
  method Trimmed(p: PrintBuffer) returns (printed: array<byte>)
    requires p.Valid()
    ensures fresh(printed) && printed[..] == p.Written() + [0]
  {
    printed := new byte[p.offset + 1];
    forall i | 0 <= i < p.offset {
      printed[i] := p.buffer[i];
    }
    printed[p.offset] := 0;
    assert printed[..p.offset] == p.buffer[..p.offset];
    assert printed[..] == printed[..p.offset] + [0];
  }

  /** cJSON_PrintBuffered: the buffer starts at the caller's guess and is handed over untrimmed. */
  method PrintBuffered(item: Item, ghost sh: Shape, ghost v: Json, prebuffer: int, format: bool)
    returns (ok: bool, printed: array<byte>)
    requires IntTree(v) && Built(item, sh, v) && INT_MIN <= prebuffer <= INT_MAX
    ensures ok <==> prebuffer >= 0 && |Render(v, format, 0)| + 2 <= INT_MAX
    ensures ok ==> |Render(v, format, 0)| < printed.Length
    ensures ok ==> printed[..|Render(v, format, 0)|] == Render(v, format, 0) && printed[|Render(v, format, 0)|] == 0
  {
    hide IntTree, Render, Built, Below, RootSet, Inner;
    Settled(sh.kids);
    if prebuffer < 0 {
      printed := new byte[0];
      return false, printed;
    }
    printed := new byte[prebuffer];
    var p := new PrintBuffer(printed, false, format);
    ghost var was, t := p.Written(), Render(v, format, 0);
    ok := p.PrintValue(item, sh, v);
    printed := p.buffer;
    assert was + t == t;
  }

  /**
   * cJSON_PrintPreallocated: succeeds exactly when the buffer has two bytes more than the text, and
   * then leaves the text the growing printer would produce.
   */
  method PrintPreallocated(item: Item, ghost sh: Shape, ghost v: Json, buffer: array<byte>, format: bool)
    returns (ok: bool)
    requires IntTree(v) && Built(item, sh, v) && buffer.Length <= INT_MAX
    modifies buffer
    ensures ok <==> |Render(v, format, 0)| + 2 <= buffer.Length
    ensures ok ==> buffer[..|Render(v, format, 0)|] == Render(v, format, 0) && buffer[|Render(v, format, 0)|] == 0
  {
    hide IntTree, Render, Built, Below, RootSet, Inner;
    Settled(sh.kids);
    var p := new PrintBuffer(buffer, true, format);
    ghost var was, t := p.Written(), Render(v, format, 0);
    ok := p.PrintValue(item, sh, v);
    assert was + t == t;
  }

  function NameText(key: CString, fmt: bool, depth: nat): bytes {
    When(fmt, Tabs(depth)) + StringText(key) + KeySep(fmt)
  }

  lemma MemberParts(m: Member, fmt: bool, depth: nat, more: bool)
    ensures RenderMember(m, fmt, depth, more)
         == NameText(m.key, fmt, depth) + Render(m.value, fmt, depth) + MemberEnd(fmt, more)
  {
  }

  function ElemPart(e: Json, fmt: bool, depth: nat, more: bool): bytes {
    Render(e, fmt, depth) + When(more, ElemSep(fmt))
  }

  lemma ElemsNext(es: seq<Json>, i: nat, fmt: bool, depth: nat)
    requires i <= |es|
    ensures i == |es| ==> RenderElems(es[i..], fmt, depth) == []
    ensures i < |es| ==>
      RenderElems(es[i..], fmt, depth)
        == ElemPart(es[i], fmt, depth, i + 1 < |es|) + RenderElems(es[i + 1..], fmt, depth)
    ensures i < |es| && IntTree(Array(es)) ==> IntTree(es[i])
  {
    assert i < |es| ==> es[i..][1..] == es[i + 1..];
  }

  lemma MembersNext(ms: seq<Member>, i: nat, fmt: bool, depth: nat)
    requires i <= |ms|
    ensures i == |ms| ==> RenderMembers(ms[i..], fmt, depth) == []
    ensures i < |ms| ==>
      RenderMembers(ms[i..], fmt, depth)
        == RenderMember(ms[i], fmt, depth, i + 1 < |ms|) + RenderMembers(ms[i + 1..], fmt, depth)
    ensures i < |ms| && IntTree(Object(ms)) ==> IntTree(ms[i].value)
  {
    assert i < |ms| ==> ms[i..][1..] == ms[i + 1..];
  }

  lemma KeyNoNul(s: CString)
    ensures 0 !in StringText(s)
  {
    EscapeNoNul(s);
  }

  lemma ByteNoNul(c: byte)
    requires c != 0
    ensures 0 !in EscapeByte(c)
  {
  }

  lemma {:induction false} EscapeNoNul(s: CString)
    ensures 0 !in EscapeText(s)
  {
    if s != [] {
      assert s[0] in s;
      ByteNoNul(s[0]);
      EscapeNoNul(s[1..]);
    }
  }

  lemma {:induction false} DecimalNoNul(n: nat)
    ensures 0 !in Decimal(n)
  {
    DecimalDigits(n);
  }

  lemma {:induction false} RenderNoNul(v: Json, fmt: bool, depth: nat)
    ensures 0 !in Render(v, fmt, depth)
    decreases v, 1
  {
    match v
    case Number(d) => DecimalNoNul(if d.Floor < 0 then -d.Floor else d.Floor);
    case String(s) => EscapeNoNul(s);
    case Array(es) => ElemsNoNul(es, fmt, depth + 1);
    case Object(ms) => MembersNoNul(ms, fmt, depth + 1);
    case _ =>
  }

  lemma {:induction false} ElemsNoNul(es: seq<Json>, fmt: bool, depth: nat)
    ensures 0 !in RenderElems(es, fmt, depth)
    decreases es, 0
  {
    if es != [] {
      RenderNoNul(es[0], fmt, depth);
      ElemsNoNul(es[1..], fmt, depth);
    }
  }

  lemma {:induction false} MembersNoNul(ms: seq<Member>, fmt: bool, depth: nat)
    ensures 0 !in RenderMembers(ms, fmt, depth)
    decreases ms, 0
  {
    if ms != [] {
      EscapeNoNul(ms[0].key);
      RenderNoNul(ms[0].value, fmt, depth);
      MembersNoNul(ms[1..], fmt, depth);
    }
  }

  method CountEscapes(input: bytes) returns (extra: nat)
    ensures |EscapeText(input)| == |input| + extra
  {
    extra := 0;
    for i := 0 to |input|
      invariant |EscapeText(input)| == i + extra + |EscapeText(input[i..])|
    {
      assert input[i..][1..] == input[i + 1..];
      var c := input[i];
      if c == QUOTE || c == BACKSLASH || c == 8 || c == 12 || c == NL || c == CR || c == TAB {
        extra := extra + 1;
      } else if c < 32 {
        extra := extra + 5;
      }
    }
    assert input[|input|..] == [];
  }

  /** A string that escaping does not lengthen is printed as it is. */
  lemma {:induction false} NoEscapes(s: bytes)
    ensures |EscapeText(s)| >= |s|
    ensures |EscapeText(s)| == |s| ==> EscapeText(s) == s
  {
    if s != [] {
      NoEscapes(s[1..]);
      assert s == [s[0]] + s[1..];
    }
  }
}
