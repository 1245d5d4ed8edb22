/** The editor's buffer operations (src/ed.c) on the ring of lines. */
module Ed {
  import opened EdRing

  const MAXLINE: nat := 512
  const NL: char := '\n'

  /** relink. */
  function Relink(m: Memory, a: nat, x: nat, y: nat, b: nat): Memory
    requires x in m && y in m
  {
    var m1 := m[x := m[x].(prev := a)];
    m1[y := m1[y].(next := b)]
  }

  lemma RelinkPair(m: Memory, a: nat, first: nat, last: nat, b: nat)
    requires a in m && b in m && first in m && last in m && a != last && b != first
    ensures Relink(Relink(m, a, first, last, b), last, b, a, first) == Tie(Tie(m, a, first), last, b)
  {
  }

  predicate NoBreaks(m: Memory) { forall a | a in m :: NL !in m[a].text }

  /** The lines of the buffer. */
  function Lines(m: Memory, ring: seq<nat>): (r: seq<string>)
    requires |ring| > 0 && forall a | a in ring :: a in m
    ensures |r| == |ring| - 1 && forall k | 0 <= k < |r| :: r[k] == m[ring[k + 1]].text
  {
    seq(|ring| - 1, k requires 0 <= k < |ring| - 1 => m[ring[k + 1]].text)
  }

  class Buffer {
    var mem: Memory
    var curLn: nat
    var curPtr: nat
    var lastLn: nat
    var line1: int
    var line2: int
    ghost var ring: seq<nat>

    /** The ring has lastLn lines, and the current pointer is at the current line. */
    ghost predicate Valid()
      reads this`mem, this`ring, this`lastLn, this`curLn, this`curPtr
    {
      Ring(mem, ring) && |ring| == lastLn + 1 && curLn <= lastLn && curPtr == ring[curLn] && NoBreaks(mem)
    }

    ghost function Text(): seq<string>
      requires Valid()
      reads this`mem, this`ring, this`lastLn, this`curLn, this`curPtr
    {
      Lines(mem, ring)
    }

    /** set_ed_buf. */
    constructor ()
      ensures Valid() && Text() == [] && curLn == 0
    {
      mem := map[0 := Line(0, 0, "")];
      curLn, curPtr, lastLn := 0, 0, 0;
      line1, line2 := 0, 0;
      ring := [0];
    }

    function NextLn(l: nat): nat
      reads this
    {
      if l + 1 > lastLn then 0 else l + 1
    }

    /** getptr: by the shorter way around. */
    method GetPtr(num: nat) returns (ptr: nat)
      requires Closed(mem, ring) && |ring| == lastLn + 1
      ensures ptr == ring[Around(num, |ring|)]
    {
      hide Closed, Around;
      AroundOk(num, |ring|);
      if 2 * num > lastLn && num <= lastLn {
        LinkAt(mem, ring, lastLn);
        ptr := mem[0].prev;
        var j := lastLn;
        while j > num
          invariant num <= j <= lastLn && ptr == ring[j]
        {
          LinkAt(mem, ring, j - 1);
          ptr := mem[ptr].prev;
          j := j - 1;
        }
      } else {
        ptr := WalkDown(num);
      }
    }

    method WalkDown(num: nat) returns (ptr: nat)
      requires Closed(mem, ring) && |ring| == lastLn + 1
      ensures ptr == ring[Around(num, |ring|)]
    {
      hide Closed, Around;
      LinkAt(mem, ring, 0);
      AroundOk(0, |ring|);
      ptr := 0;
      var j := 0;
      while j < num
        invariant j <= num && Around(j, |ring|) < |ring| && ptr == ring[Around(j, |ring|)]
      {
        LinkAt(mem, ring, Around(j, |ring|));
        AroundOk(j, |ring|);
        ptr := mem[ptr].next;
        j := j + 1;
      }
    }

    /** setCurLn. */
    method SetCurLn(lin: nat)
      requires Closed(mem, ring) && |ring| == lastLn + 1 && lin <= lastLn
      modifies this`curLn, this`curPtr
      ensures curLn == lin && curPtr == ring[lin]
    {
      hide Closed, Around;
      AroundOk(lin, |ring|);
      curLn := lin;
      curPtr := GetPtr(lin);
    }

    /** nextCurLn and prevCurLn, around the ends. */
    method NextCurLn()
      requires Valid()
      modifies this`curLn, this`curPtr
      ensures Valid() && curLn == if old(curLn) == lastLn then 0 else old(curLn) + 1
    {
      hide Closed;
      LinkAt(mem, ring, curLn);
      curLn := NextLn(curLn);
      curPtr := mem[curPtr].next;
    }

    method PrevCurLn()
      requires Valid()
      modifies this`curLn, this`curPtr
      ensures Valid() && curLn == if old(curLn) == 0 then lastLn else old(curLn) - 1
    {
      hide Closed;
      LinkAt(mem, ring, if curLn == 0 then lastLn else curLn - 1);
      curLn := if curLn == 0 then lastLn else curLn - 1;
      curPtr := mem[curPtr].prev;
    }

    /** One line goes in after the current one and becomes the current one. */
    method InsLine(text: string)
      requires Valid() && NL !in text
      modifies this`mem, this`curLn, this`curPtr, this`lastLn, this`ring
      ensures Valid() && Text() == old(Text()[..curLn] + [text] + Text()[curLn..])
      ensures curLn == old(curLn) + 1 && lastLn == old(lastLn) + 1
    {
      hide Closed, Ring;
      RingClosed(mem, ring);
      LinkAt(mem, ring, curLn);
      var added := NewLine(mem);
      var nxt := mem[curPtr].next;
      InsertOk(mem, ring, curLn, added, text);
      mem := mem[added := Line(0, 0, text)];
      mem := Relink(mem, curPtr, added, added, nxt);
      mem := Relink(mem, added, nxt, curPtr, added);
      lastLn := lastLn + 1;
      curLn := curLn + 1;
      curPtr := added;
      ring := ring[..curLn] + [added] + ring[curLn..];
    }

    /** ins: the lines of the text go in after the current line. */
    method Ins(str: string)
      requires Valid()
      modifies this`mem, this`curLn, this`curPtr, this`lastLn, this`ring
      ensures Valid() && Text() == old(Text()[..curLn]) + Split(str) + old(Text()[curLn..])
      ensures curLn == old(curLn) + |Split(str)| && lastLn == old(lastLn) + |Split(str)|
    {
      hide Valid, Split;
      CurIn();
      ghost var t, c, done := Text(), curLn, [];
      var rest := str;
      var more := true;
      assert t[..c] + [] + t[c..] == t;
      while more
        invariant Valid() && |done| <= |Split(str)|
        invariant Text() == t[..c] + done + t[c..] && curLn == c + |done| && lastLn == old(lastLn) + |done|
        invariant Split(str) == done + if more then Split(rest) else []
        decreases more, |rest|
      {
        var n := Break(rest);
        SplitStep(rest);
        InsLine(rest[..n]);
        Grown(t, c, done, rest[..n]);
        done := done + [rest[..n]];
        more := n < |rest|;
        if more { rest := rest[n + 1..]; }
      }
      assert done + [] == done;
    }

    lemma CurIn()
      requires Valid()
      ensures curLn <= lastLn == |Text()|
    {
    }

    /** del: the lines from `from`, at least 1, till `till` are freed. */
    method Del(from0: int, till: nat)
      requires Valid() && till <= lastLn && from0 <= till + 1
      modifies this`mem, this`curLn, this`curPtr, this`lastLn, this`ring
      ensures var from := if from0 < 1 then 1 else from0;
              && Valid() && Text() == old(Text())[..from - 1] + old(Text())[till..]
              && curLn == from - 1 && lastLn == old(lastLn) - (till - from + 1)
    {
      hide Closed, Ring, Around, AfterDel, NoBreaks, Elements;
      var from := if from0 < 1 then 1 else from0;
      RingClosed(mem, ring);
      var first, last := Ends(from, till);
      DelOk(mem, ring, from, till);
      FreeLines(first, last, from, till);
      mem := Relink(mem, first, last, first, last);
      ring := ring[..from] + ring[till + 1..];
      lastLn := lastLn - (till - from + 1);
      RingClosed(mem, ring);
      SetCurLn(from - 1);
    }

    method Ends(from: nat, till: nat) returns (first: nat, last: nat)
      requires Closed(mem, ring) && |ring| == lastLn + 1 && till <= lastLn && 0 < from <= till + 1
      ensures first == ring[from - 1] && last == (ring + [0])[till + 1] && first in mem && last in mem
    {
      hide Closed, Around;
      AroundOk(from - 1, |ring|);
      AroundOk(till, |ring|);
      LinkAt(mem, ring, from - 1);
      LinkAt(mem, ring, till);
      var p := GetPtr(from);
      first := mem[p].prev;
      var q := GetPtr(till);
      last := mem[q].next;
    }

    /** The lines strictly between two are freed. */
    method FreeLines(first: nat, last: nat, ghost from: nat, ghost till: nat)
      requires Closed(mem, ring) && 0 < from <= till + 1 <= |ring| && first == ring[from - 1]
                 && last == (ring + [0])[till + 1]
      modifies this`mem
      ensures mem == old(mem) - Elements(ring[from..till + 1])
    {
      hide Closed;
      ghost var m := mem;
      LinkAt(mem, ring, from - 1);
      var next := mem[first].next;
      ghost var j := from;
      assert ring[from..from] == [];
      while next != last && next != 0
        invariant from <= j <= till + 1 && next == (ring + [0])[j]
        invariant mem == m - Elements(ring[from..j])
        decreases till + 1 - j
      {
        LinkAt(m, ring, j);
        StillThere(ring, from, j);
        var tmp := mem[next].next;
        mem := mem - {next};
        ElementsStep(ring, from, j);
        next := tmp;
        j := j + 1;
      }
      AtEnd(m, ring, j, till);
    }

    /** moveblock: the lines line1 .. line2 move behind line num. */
    method MoveBlock(num0: nat) returns (ok: bool)
      requires Valid() && 1 <= line1 <= line2 <= lastLn && num0 <= lastLn
      modifies this`mem, this`curLn, this`curPtr, this`lastLn, this`ring
      ensures Valid() && lastLn == old(lastLn)
      ensures ok <==> num0 < line1 || line2 < num0
      ensures !ok ==> Text() == old(Text()) && curLn == old(curLn)
      ensures ok ==> Text() == Moved(old(Text()), line1, line2, num0)
      ensures ok ==> curLn == if num0 < line1 then num0 + (line2 - line1 + 1) else num0
    {
      hide Valid, Moved, Spliced;
      CurIn();
      if line1 <= num0 <= line2 { return false; }
      MovedIs(Text(), line1, line2, num0);
      var range := line2 - line1 + 1;
      MoveRange(line1, line2, if num0 > line1 then num0 - range else num0);
      ok := true;
    }

    /** The lines l1 .. l2 come out, and go in again behind line num of the rest. */
    method MoveRange(l1: nat, l2: nat, num: nat)
      requires Valid() && 1 <= l1 <= l2 <= lastLn && num <= lastLn - (l2 - l1 + 1)
      modifies this`mem, this`curLn, this`curPtr, this`lastLn, this`ring
      ensures Valid() && lastLn == old(lastLn) && |old(Text())| == lastLn && Text() == Spliced(old(Text()), l1, l2, num)
      ensures curLn == num + (l2 - l1 + 1)
    {
      hide Closed, Ring, NoBreaks, Loose;
      var range := l2 - l1 + 1;
      var first, last;
      ghost var block;
      first, last, block := CutBlock(l1, l2);
      PasteBlock(num, range, first, last, block);
      RingClosed(mem, ring);
      SetCurLn(num + range);
    }

    method CutBlock(l1: nat, l2: nat) returns (first: nat, last: nat, ghost block: seq<nat>)
      requires Valid() && 1 <= l1 <= l2 <= lastLn
      modifies this`mem, this`lastLn, this`ring
      ensures Loose(mem, ring, block) && NoBreaks(mem) && |ring| == lastLn + 1 && lastLn == old(lastLn) - |block|
                && |block| == l2 - l1 + 1
      ensures first == block[0] && last == block[|block| - 1]
      ensures LooseShape(mem, ring, block)
      ensures Lines(mem, ring) == old(Text())[..l1 - 1] + old(Text())[l2..]
                && Texts(mem, block) == old(Text())[l1 - 1..l2]
    {
      hide Closed, Ring, Around, NoBreaks, Tie, Loose, Lines, Texts, LooseShape, Relink;
      RingClosed(mem, ring);
      AroundOk(l1, |ring|);
      AroundOk(l2, |ring|);
      var before, after := Ends(l1, l2);
      first := GetPtr(l1);
      last := GetPtr(l2);
      block := ring[l1..l2 + 1];
      CutLoose(mem, ring, l1, l2 + 1);
      RelinkTie(mem, before, after);
      mem := Relink(mem, before, after, before, after);
      ring := ring[..l1] + ring[l2 + 1..];
      lastLn := lastLn - (l2 - l1 + 1);
    }

    method PasteBlock(num: nat, range: nat, first: nat, last: nat, ghost block: seq<nat>)
      requires Loose(mem, ring, block) && NoBreaks(mem) && |ring| == lastLn + 1 && num <= lastLn && range == |block|
      requires LooseShape(mem, ring, block) && first == block[0] && last == block[|block| - 1]
      modifies this`mem, this`lastLn, this`ring
      ensures Ring(mem, ring) && NoBreaks(mem) && |ring| == lastLn + 1 && lastLn == old(lastLn) + range
      ensures (forall a | a in ring :: a in mem)
      ensures Lines(mem, ring) == old(Lines(mem, ring)[..num] + Texts(mem, block) + Lines(mem, ring)[num..])
    {
      hide Closed, Ring, NoBreaks, Tie, Relink, Loose;
      assert Closed(mem, ring) by { LooseClosed(mem, ring, block); }
      var before, after := Around2(num);
      PasteRing(mem, ring, num + 1, block);
      RelinkPair(mem, before, first, last, after);
      RelinkKeys(mem, before, first, last, after);
      mem := Relink(mem, before, first, last, after);
      mem := Relink(mem, last, after, before, first);
      ring := ring[..num + 1] + block + ring[num + 1..];
      lastLn := lastLn + range;
      RingClosed(mem, ring);
    }

    method Around2(num: nat) returns (before: nat, after: nat)
      requires Closed(mem, ring) && |ring| == lastLn + 1 && num <= lastLn
      ensures before == ring[num] && after == (ring + [0])[num + 1]
    {
      hide Closed, Around;
      AroundOk(num, |ring|);
      AroundOk(NextLn(num), |ring|);
      before := GetPtr(num);
      after := GetPtr(NextLn(num));
      LinkAt(mem, ring, 0);
    }

    /** gettxt. */
    method GetTxt(num: nat) returns (text: string)
      requires Valid() && 1 <= num <= lastLn
      ensures |Text()| == lastLn && text == Text()[num - 1] && NL !in text
    {
      hide Closed, Ring, Around;
      RingClosed(mem, ring);
      AroundOk(num, |ring|);
      var ptr := GetPtr(num);
      assert ptr in ring;
      text := mem[ptr].text;
    }

    /** One line is read and inserted as a copy. */
    method CopyLine(lin: nat, ghost t: seq<string>, ghost num: nat, ghost l1: nat, ghost c: nat)
      requires Valid() && 1 <= lin <= lastLn && 1 <= l1 && l1 + c <= |t| && num <= |t|
      requires lin == (if l1 - 1 + c < num then l1 + c else l1 + 2 * c)
      requires Text() == Copied(t, num, l1, c) && curLn == num + c
      modifies this`mem, this`curLn, this`curPtr, this`lastLn, this`ring
      ensures Valid() && Text() == Copied(t, num, l1, c + 1) && curLn == num + c + 1 && lastLn == old(lastLn) + 1
    {
      hide Valid, Split, Copied;
      CurIn();
      var text := GetTxt(lin);
      CopyStep(t, num, l1, c);
      SplitOne(text);
      Ins(text);
    }

    /** transfer: a copy of the lines line1 .. line2 goes in behind line num, wherever that
        is; the second loop reads lines that its own insertions shift. */
    method Transfer(num: nat) returns (ok: bool)
      requires Valid() && num <= lastLn && line2 <= lastLn
      modifies this`mem, this`curLn, this`curPtr, this`lastLn, this`ring, this`line2
      ensures Valid() && (ok <==> 1 <= line1 <= old(line2))
      ensures !ok ==> Text() == old(Text()) && curLn == old(curLn)
      ensures ok ==>
                && |old(Text())| == old(lastLn)
                && Text() == old(Text())[..num] + old(Text())[line1 - 1..old(line2)] + old(Text())[num..]
      ensures ok ==> curLn == num + (old(line2) - line1 + 1)
    {
      hide Closed, Ring, Copied, Lines, NoBreaks;
      if line1 <= 0 || line1 > line2 { return false; }
      CurIn();
      ghost var t, l1, l2 := Text(), line1, line2;
      var mid := if num < line2 then num else line2;
      RingClosed(mem, ring);
      SetCurLn(num);
      CopyNone(t, num, l1);
      var ntrans := 0;
      var lin: nat := line1;
      while lin <= mid
        invariant line1 == l1 && line2 == l2
        invariant Valid() && lin == l1 + ntrans && (lin <= mid + 1 || ntrans == 0) && |t| == old(lastLn)
                    && lastLn == |t| + ntrans
        invariant Text() == Copied(t, num, l1, ntrans) && curLn == num + ntrans
      {
        CopyLine(lin, t, num, l1, ntrans);
        ntrans := ntrans + 1;
        lin := lin + 1;
      }
      lin := lin + ntrans;
      line2 := line2 + ntrans;
      ok := true;
      SecondLoop(lin, t, num, l1, l2, ntrans);
      CopyAll(t, num, l1, l2);
    }

    method SecondLoop(lin0: nat, ghost t: seq<string>, ghost num: nat, ghost l1: nat, ghost l2: nat, ghost c0: nat)
      requires Valid() && 1 <= l1 <= l2 <= |t| && num <= |t| && lastLn == |t| + c0 && c0 <= l2 - l1 + 1
                 && lin0 == l1 + 2 * c0
      requires line2 == l2 + c0 && (c0 == l2 - l1 + 1 || num <= l1 - 1 + c0)
      requires Text() == Copied(t, num, l1, c0) && curLn == num + c0
      modifies this`mem, this`curLn, this`curPtr, this`lastLn, this`ring, this`line2
      ensures Valid() && Text() == Copied(t, num, l1, l2 - l1 + 1) && curLn == num + (l2 - l1 + 1)
    {
      hide Valid, Copied;
      var lin := lin0;
      ghost var c := c0;
      while lin <= line2
        invariant Valid() && c0 <= c <= l2 - l1 + 1 && lin == l1 + 2 * c && line2 == l2 + c && lastLn == |t| + c
        invariant Text() == Copied(t, num, l1, c) && curLn == num + c
        decreases l2 + 1 - l1 - c
      {
        CopyLine(lin, t, num, l1, c);
        c := c + 1;
        line2 := line2 + 1;
        lin := lin + 2;
      }
    }

    /** join: the lines become one, each after the first with its leading blanks replaced
        by one; a result that does not fit a line is an error. */
    method Join(first: int, last: int) returns (ok: bool)
      requires Valid()
      modifies this`mem, this`curLn, this`curPtr, this`lastLn, this`ring
      ensures Valid() && |old(Text())| == old(lastLn)
      ensures ok <==>
                && 0 < first <= last <= old(lastLn)
                && (first == last || |Joined(old(Text()), first, last)| < MAXLINE)
      ensures !ok ==> Text() == old(Text()) && curLn == old(curLn)
      ensures ok ==>
                && curLn == first
                && Text() == old(Text())[..first - 1] + [Joined(old(Text()), first, last)] + old(Text())[last..]
    {
      hide Ring, NoBreaks, Lines, Joined;
      CurIn();
      if first <= 0 || first > last || last > lastLn { return false; }
      ghost var t := Text();
      assert |t| == lastLn;
      if first == last {
        RingClosed(mem, ring);
        SetCurLn(first);
        JoinOne(t, first);
        return true;
      }
      var text;
      ok, text := JoinText(first, last);
      if !ok { return; }
      Del(first, last);
      SplitOne(text);
      Ins(text);
      assert (t[..first - 1] + t[last..])[..first - 1] == t[..first - 1];
      assert (t[..first - 1] + t[last..])[first - 1..] == t[last..];
    }

    method JoinText(first: nat, last: nat) returns (ok: bool, text: string)
      requires Valid() && 0 < first < last <= lastLn
      ensures |Text()| == lastLn && (ok <==> |Joined(Text(), first, last)| < MAXLINE)
      ensures ok ==> text == Joined(Text(), first, last) && NL !in text
    {
      hide Valid, Glue;
      CurIn();
      ghost var t := Text();
      var buf := new char[MAXLINE];
      var cp: nat, num: nat := 0, first;
      ok, text := true, "";
      while num <= last
        invariant first <= num <= last + 1 && cp < MAXLINE && NL !in buf[..cp]
        invariant buf[..cp] == if num == first then "" else Joined(t, first, num - 1)
      {
        var line := GetTxt(num);
        ghost var was := buf[..cp];
        GlueOk(line);
        cp, ok := Append(buf, cp, line, num == first);
        JoinGrows(t, first, num, last);
        if !ok { return; }
        num := num + 1;
      }
      text := buf[..cp];
    }
  }

  /** The inner loop of join, on one line. */
  method Append(buf: array<char>, cp0: nat, str: string, whole: bool) returns (cp: nat, ok: bool)
    requires buf.Length == MAXLINE && cp0 < MAXLINE
    modifies buf
    ensures var piece := if whole then str else Glue(str);
            && (ok <==> cp0 + |piece| < MAXLINE)
            && (ok ==> cp == cp0 + |piece| && buf[..cp] == old(buf[..cp0]) + piece)
  {
    hide Glue;
    GlueNone();
    ghost var piece := if whole then str else Glue(str);
    assert str[0..] == str;
    ghost var base := buf[..cp0];
    var flag, i := whole, 0;
    cp := cp0;
    while i < |str|
      invariant i <= |str| && cp0 <= cp < MAXLINE
      invariant if flag then base + piece == buf[..cp] + str[i..] else buf[..cp] == base && piece == Glue(str[i..])
    {
      GlueStep(str, i);
      if flag || (str[i] != '\t' && str[i] != ' ') {
        ghost var was := buf[..cp];
        if !flag { cp := PutChar(buf, cp, ' '); }
        if cp >= MAXLINE - 1 {
          TooLong(base, piece, was, flag, str, i);
          return cp, false;
        }
        ghost var now := buf[..cp];
        cp := PutChar(buf, cp, str[i]);
        AppendStep(base, piece, was, now, flag, str, i);
        flag := true;
      }
      i := i + 1;
    }
    ok := true;
  }

  method PutChar(buf: array<char>, cp: nat, c: char) returns (next: nat)
    requires cp < buf.Length
    modifies buf
    ensures next == cp + 1 && buf[..next] == old(buf[..cp]) + [c]
  {
    buf[cp] := c;
    next := cp + 1;
  }

  lemma TooLong(base: string, piece: string, was: string, flag: bool, str: string, i: nat)
    requires i < |str|
    requires if flag then base + piece == was + str[i..] else was == base && piece == " " + str[i..]
    ensures |base| + |piece| >= |was| + (if flag then 1 else 2)
  {
    assert |base + piece| == |base| + |piece|;
    if flag { assert |was + str[i..]| == |was| + |str[i..]|; }
  }

  lemma AppendStep(base: string, piece: string, was: string, now: string, flag: bool, str: string, i: nat)
    requires i < |str|
    requires if flag then now == was && base + piece == was + str[i..]
               else now == was + " " && was == base && piece == " " + str[i..]
    ensures base + piece == (now + [str[i]]) + str[i + 1..]
  {
    assert str[i..] == [str[i]] + str[i + 1..];
  }

  lemma GlueNone()
    ensures Glue("") == ""
  {
  }

  lemma GlueStep(s: string, i: nat)
    requires i < |s|
    ensures Glue(s[i..]) == if Blank(s[i]) then Glue(s[i + 1..]) else " " + s[i..]
  {
    TrimStep(s, i);
  }

  predicate Blank(c: char) { c == '\t' || c == ' ' }

  function Trim(s: string): string { if s != "" && Blank(s[0]) then Trim(s[1..]) else s }

  /** What a line adds to the lines it is joined to. */
  function Glue(s: string): string { if Trim(s) == "" then "" else " " + Trim(s) }

  lemma TrimStep(s: string, i: nat)
    requires i < |s|
    ensures Trim(s[i..]) == if Blank(s[i]) then Trim(s[i + 1..]) else s[i..]
  {
    assert s[i..][1..] == s[i + 1..];
  }

  lemma {:induction false} TrimClean(s: string)
    requires NL !in s
    ensures NL !in Trim(s)
  {
    if s != "" && Blank(s[0]) { TrimClean(s[1..]); }
  }

  lemma GlueOk(s: string)
    requires NL !in s
    ensures NL !in Glue(s)
  {
    TrimClean(s);
  }

  /** The lines first .. last as one line. */
  function Joined(t: seq<string>, first: nat, last: nat): string
    requires 0 < first <= last <= |t|
  {
    if last == first then t[first - 1] else Joined(t, first, last - 1) + Glue(t[last - 1])
  }

  /** The first character of s that is not blank is at i, or there is none before the end. */
  ghost predicate Indent(s: string, i: nat) {
    i <= |s| && (forall k | 0 <= k < i :: Blank(s[k])) && (i < |s| ==> !Blank(s[i]))
  }

  lemma {:induction false} TrimIndent(s: string)
    ensures exists i: nat :: Indent(s, i) && Trim(s) == s[i..]
  {
    if s != "" && Blank(s[0]) {
      TrimIndent(s[1..]);
      var i: nat :| Indent(s[1..], i) && Trim(s[1..]) == s[1..][i..];
      assert Indent(s, i + 1) && s[1..][i..] == s[i + 1..];
    } else {
      assert Indent(s, 0) && s[0..] == s;
    }
  }

  /** Joining begins with the first line as it is; each further line is added without its
      indentation and behind one blank, or not at all if there is nothing else in it. */
  lemma JoinedLines(t: seq<string>, first: nat, num: nat)
    requires 0 < first <= num < |t|
    ensures Joined(t, first, first) == t[first - 1]
    ensures exists i: nat :: Indent(t[num], i) && Joined(t, first, num + 1) ==
              if i == |t[num]| then Joined(t, first, num) else Joined(t, first, num) + " " + t[num][i..]
  {
    TrimIndent(t[num]);
    var i: nat :| Indent(t[num], i) && Trim(t[num]) == t[num][i..];
    if i < |t[num]| {
      assert Joined(t, first, num) + (" " + t[num][i..]) == Joined(t, first, num) + " " + t[num][i..];
    } else {
      assert Joined(t, first, num) + "" == Joined(t, first, num);
    }
  }

  lemma JoinOne(t: seq<string>, i: nat)
    requires 0 < i <= |t|
    ensures t == t[..i - 1] + [Joined(t, i, i)] + t[i..]
  {
  }

  /** Joining more lines never gives less. */
  lemma {:induction false} JoinGrows(t: seq<string>, first: nat, num: nat, last: nat)
    requires 0 < first <= num <= last <= |t|
    ensures |Joined(t, first, num)| <= |Joined(t, first, last)|
  {
    if num < last { JoinGrows(t, first, num, last - 1); }
  }

  /** The first c lines from l1 on copied behind line num. */
  function Copied(t: seq<string>, num: nat, l1: nat, c: nat): seq<string>
    requires 1 <= l1 && l1 - 1 + c <= |t| && num <= |t|
  {
    t[..num] + t[l1 - 1..l1 - 1 + c] + t[num..]
  }

  lemma CopyNone(t: seq<string>, num: nat, l1: nat)
    requires 1 <= l1 <= |t| + 1 && num <= |t|
    ensures Copied(t, num, l1, 0) == t
  {
    assert t[l1 - 1..l1 - 1] == [];
    assert t == t[..num] + t[num..];
  }

  lemma CopyAll(t: seq<string>, num: nat, l1: nat, l2: nat)
    requires 1 <= l1 <= l2 <= |t| && num <= |t|
    ensures Copied(t, num, l1, l2 - l1 + 1) == t[..num] + t[l1 - 1..l2] + t[num..]
  {
  }

  /** Where the next line to copy is by now, and what inserting it gives. */
  lemma CopyStep(t: seq<string>, num: nat, l1: nat, c: nat)
    requires 1 <= l1 && l1 + c <= |t| && num <= |t|
    ensures var u := Copied(t, num, l1, c); var src := if l1 - 1 + c < num then l1 - 1 + c else l1 - 1 + 2 * c;
            && src < |u| == |t| + c && u[src] == t[l1 - 1 + c]
            && u[..num + c] + [t[l1 - 1 + c]] + u[num + c..] == Copied(t, num, l1, c + 1)
  {
    var u := Copied(t, num, l1, c);
    var x := t[l1 - 1 + c];
    assert t[l1 - 1..l1 + c] == t[l1 - 1..l1 - 1 + c] + [x];
    assert u[..num + c] == t[..num] + t[l1 - 1..l1 - 1 + c] && u[num + c..] == t[num..];
  }

  lemma SplitOne(s: string)
    requires NL !in s
    ensures Split(s) == [s]
  {
  }

  /** Lines l1 .. l2 cut out and put behind line num, which is not one of them. */
  function Moved(t: seq<string>, l1: nat, l2: nat, num: nat): seq<string>
    requires 1 <= l1 <= l2 <= |t| && num <= |t| && (num < l1 || l2 < num)
  {
    if num < l1 then t[..num] + t[l1 - 1..l2] + t[num..l1 - 1] + t[l2..]
    else t[..l1 - 1] + t[l2..num] + t[l1 - 1..l2] + t[num..]
  }

  /** A ring, and a block of lines that is off it. */
  ghost predicate Loose(m: Memory, ring: seq<nat>, block: seq<nat>) {
    && Closed(m, ring) && block != [] && Chain(m, block) && Distinct(block)
    && (forall x | x in block :: x !in ring)
    && forall x :: x in m <==> x in ring || x in block
  }

  ghost predicate LooseShape(m: Memory, ring: seq<nat>, block: seq<nat>) {
    |ring| > 0 && |block| > 0 && (forall x | x in ring :: x in m) && forall x | x in block :: x in m
  }

  lemma LooseClosed(m: Memory, ring: seq<nat>, block: seq<nat>)
    requires Loose(m, ring, block)
    ensures Closed(m, ring)
  {
  }

  lemma RelinkTie(m: Memory, a: nat, b: nat)
    requires a in m && b in m
    ensures Relink(m, a, b, a, b) == Tie(m, a, b)
  {
  }

  lemma RelinkKeys(m: Memory, a: nat, x: nat, y: nat, b: nat)
    requires x in m && y in m
    ensures Relink(m, a, x, y, b).Keys == m.Keys
  {
  }

  lemma CutLoose(m: Memory, ring: seq<nat>, i: nat, j: nat)
    requires Ring(m, ring) && 0 < i < j <= |ring| && NoBreaks(m)
    ensures var a, b := ring[i - 1], (ring + [0])[j];
            && a in m && b in m && (forall x | x in ring :: x in m)
            && var m', ring', block := Tie(m, a, b), ring[..i] + ring[j..], ring[i..j];
            && Loose(m', ring', block) && LooseShape(m', ring', block) && NoBreaks(m')
            && Lines(m', ring') == Lines(m, ring)[..i - 1] + Lines(m, ring)[j - 1..]
            && Texts(m', block) == Lines(m, ring)[i - 1..j - 1]
  {
    hide Chain, Distinct;
    CutOk(m, ring, i, j);
    DistinctParts(ring, i, j);
    var a, b := ring[i - 1], (ring + [0])[j];
    TieMade(m, a, b);
    var m' := Tie(m, a, b);
    hide Tie, Linked;
    CutLines(m, m', ring, i, j);
    assert Texts(m', ring[i..j]) == Texts(m, ring[i..j]);
  }

  lemma PasteRing(m: Memory, ring: seq<nat>, n: nat, block: seq<nat>)
    requires Loose(m, ring, block) && LooseShape(m, ring, block) && 0 < n <= |ring| && NoBreaks(m)
    ensures var a, b, first, last := ring[n - 1], (ring + [0])[n], block[0], block[|block| - 1];
            && a in m && b in m && first in m && last in m && a != last && b != first
            && var m', ring' := Tie(Tie(m, a, first), last, b), ring[..n] + block + ring[n..];
            && Ring(m', ring') && NoBreaks(m') && (forall x | x in ring' :: x in m')
            && Lines(m', ring') == Lines(m, ring)[..n - 1] + Texts(m, block) + Lines(m, ring)[n - 1..]
  {
    hide Chain, Distinct;
    PasteOk(m, ring, n, block);
    var a, b, first, last := ring[n - 1], (ring + [0])[n], block[0], block[|block| - 1];
    assert a in ring && b in ring && first in block && last in block;
    TieMade(m, a, first);
    TieMade(Tie(m, a, first), last, b);
    var m' := Tie(Tie(m, a, first), last, b);
    hide Tie, Linked;
    DistinctInsert2(ring, n, block);
    PasteLines(m, m', ring, n, block);
  }

  lemma DistinctInsert2(s: seq<nat>, i: nat, b: seq<nat>)
    requires i <= |s|
    ensures forall x :: x in s[..i] + b + s[i..] <==> x in s || x in b
  {
    assert s == s[..i] + s[i..];
  }

  /** Lines l1 .. l2 behind line n of the rest. */
  function Spliced(t: seq<string>, l1: nat, l2: nat, n: nat): seq<string>
    requires 1 <= l1 <= l2 <= |t| && n <= |t| - (l2 - l1 + 1)
  {
    var rest := t[..l1 - 1] + t[l2..];
    rest[..n] + t[l1 - 1..l2] + rest[n..]
  }

  lemma MovedIs(t: seq<string>, l1: nat, l2: nat, num: nat)
    requires 1 <= l1 <= l2 <= |t| && num <= |t| && (num < l1 || l2 < num)
    ensures Moved(t, l1, l2, num) == Spliced(t, l1, l2, if num > l1 then num - (l2 - l1 + 1) else num)
  {
    var rest := t[..l1 - 1] + t[l2..];
    if num < l1 {
      assert rest[..num] == t[..num] && rest[num..] == t[num..l1 - 1] + t[l2..];
    } else {
      var n := num - (l2 - l1 + 1);
      assert rest[..n] == t[..l1 - 1] + t[l2..num] && rest[n..] == t[num..];
    }
  }

  /** The addresses of a list. */
  ghost function Elements(s: seq<nat>): (r: set<nat>)
    ensures forall x :: x in r <==> x in s
  {
    set x | x in s
  }

  lemma StillThere(ring: seq<nat>, from: nat, j: nat)
    requires Distinct(ring) && from <= j < |ring|
    ensures ring[j] !in ring[from..j]
  {
  }

  lemma ElementsStep(ring: seq<nat>, from: nat, j: nat)
    requires from <= j < |ring|
    ensures Elements(ring[from..j + 1]) == Elements(ring[from..j]) + {ring[j]}
  {
    assert ring[from..j + 1] == ring[from..j] + [ring[j]];
  }

  /** The walk reaches the last line only at its place on the ring. */
  lemma AtEnd(m: Memory, ring: seq<nat>, j: nat, till: nat)
    requires Closed(m, ring) && 0 < j <= till + 1 <= |ring|
    requires (ring + [0])[j] == (ring + [0])[till + 1] || (ring + [0])[j] == 0
    ensures j == till + 1
  {
    hide Chain;
  }

  /** Memory after lines from .. till are freed and their neighbours linked. */
  ghost function AfterDel(m: Memory, ring: seq<nat>, from: nat, till: nat): Memory
    requires 0 < from <= till + 1 <= |ring|
  {
    var a, b, m1 := ring[from - 1], (ring + [0])[till + 1], m - Elements(ring[from..till + 1]);
    if a in m1 && b in m1 then Relink(m1, a, b, a, b) else m1
  }

  lemma Survivors(m: Memory, ring: seq<nat>, from: nat, till: nat)
    requires Ring(m, ring) && 0 < from <= till + 1 <= |ring|
    ensures var a, b := ring[from - 1], (ring + [0])[till + 1]; var m1 := m - Elements(ring[from..till + 1]);
            && a in m1 && b in m1 && forall x :: x in m1 <==> x in ring[..from] + ring[till + 1..]
  {
    hide Chain, Distinct;
    DistinctParts(ring, from, till + 1);
    var ring' := ring[..from] + ring[till + 1..];
    assert ring'[from - 1] == ring[from - 1] && ring'[0] == 0;
    assert till + 1 < |ring| ==> ring'[from] == ring[till + 1];
  }

  lemma DelOk(m: Memory, ring: seq<nat>, from: nat, till: nat)
    requires Ring(m, ring) && 0 < from <= till + 1 <= |ring| && NoBreaks(m)
    ensures var a, b := ring[from - 1], (ring + [0])[till + 1]; var m1 := m - Elements(ring[from..till + 1]);
            a in m1 && b in m1 && AfterDel(m, ring, from, till) == Relink(m1, a, b, a, b)
    ensures var m', ring' := AfterDel(m, ring, from, till), ring[..from] + ring[till + 1..];
            && Ring(m', ring') && NoBreaks(m')
            && (forall x | x in ring :: x in m)
            && Lines(m', ring') == Lines(m, ring)[..from - 1] + Lines(m, ring)[till..]
  {
    hide Ring, Closed, Elements, AfterDel, Relink;
    RingClosed(m, ring);
    Survivors(m, ring, from, till);
    DelRing(m, ring, from, till);
    DelTexts(m, ring, from, till);
    var m', ring' := AfterDel(m, ring, from, till), ring[..from] + ring[till + 1..];
    RingClosed(m', ring');
    CutLines(m, m', ring, from, till + 1);
  }

  lemma DelTexts(m: Memory, ring: seq<nat>, from: nat, till: nat)
    requires 0 < from <= till + 1 <= |ring|
    ensures forall x | x in AfterDel(m, ring, from, till) ::
              x in m && AfterDel(m, ring, from, till)[x].text == m[x].text
    ensures var a, b, m1 := ring[from - 1], (ring + [0])[till + 1], m - Elements(ring[from..till + 1]);
            a in m1 && b in m1 ==> AfterDel(m, ring, from, till) == Relink(m1, a, b, a, b)
  {
    hide Elements;
  }

  lemma DelRing(m: Memory, ring: seq<nat>, from: nat, till: nat)
    requires Ring(m, ring) && 0 < from <= till + 1 <= |ring|
    ensures Ring(AfterDel(m, ring, from, till), ring[..from] + ring[till + 1..])
  {
    hide Chain, Distinct, Elements;
    var a, b := ring[from - 1], (ring + [0])[till + 1];
    var ring' := ring[..from] + ring[till + 1..];
    Survivors(m, ring, from, till);
    CutOk(m, ring, from, till + 1);
    var m' := AfterDel(m, ring, from, till);
    assert forall x | x in ring' :: x in m' && m'[x] == Tie(m, a, b)[x];
    ChainFrame(Tie(m, a, b), m', ring' + [0]);
  }

  function Break(s: string): (n: nat)
    ensures n <= |s| && NL !in s[..n] && (n < |s| ==> s[n] == NL)
  {
    if s == "" || s[0] == NL then 0 else
    var n := 1 + Break(s[1..]);
    assert s[..n] == [s[0]] + s[1..][..n - 1];
    n
  }

  /** The lines of a text. */
  function Split(s: string): (r: seq<string>)
    ensures |r| > 0 && forall i | 0 <= i < |r| :: NL !in r[i]
  {
    var n := Break(s);
    if n == |s| then [s] else [s[..n]] + Split(s[n + 1..])
  }

  function Unsplit(l: seq<string>): string
    requires l != []
  {
    if |l| == 1 then l[0] else l[0] + ([NL] + Unsplit(l[1..]))
  }

  /** The lines put together again are the text: none is lost, and there is a line, perhaps an
      empty one, before and after every newline. */
  lemma {:induction false} SplitBack(s: string)
    ensures Unsplit(Split(s)) == s
  {
    hide Break;
    var n := Break(s);
    if n < |s| {
      SplitBack(s[n + 1..]);
      assert s == s[..n] + ([NL] + s[n + 1..]);
    }
  }

  lemma SplitStep(s: string)
    ensures var n := Break(s); Split(s) == [s[..n]] + if n < |s| then Split(s[n + 1..]) else []
  {
    hide Break;
    var n := Break(s);
    if n == |s| { assert s[..n] == s; }
  }

  lemma Grown(t: seq<string>, c: nat, done: seq<string>, x: string)
    requires c <= |t|
    ensures var u := t[..c] + done + t[c..]; u[..c + |done|] + [x] + u[c + |done|..] == t[..c] + (done + [x]) + t[c..]
  {
    var u := t[..c] + done + t[c..];
    assert u[..c + |done|] == t[..c] + done && u[c + |done|..] == t[c..];
  }

  /** The allocator may hand out any address not in use. */
  method NewLine(m: Memory) returns (a: nat)
    ensures a !in m
  {
    ghost var n := Unused(m.Keys);
    assert n !in m;
    a :| a !in m;
  }

  lemma {:induction false} Unused(s: set<nat>) returns (n: nat)
    ensures forall a | a in s :: a < n
  {
    n := 0;
    if s != {} {
      var x :| x in s;
      n := Unused(s - {x});
      assert forall a | a in s && a != x :: a in s - {x};
      if n <= x { n := x + 1; }
    }
  }

  lemma RingClosed(m: Memory, ring: seq<nat>)
    requires Ring(m, ring)
    ensures Closed(m, ring) && forall a :: a in m <==> a in ring
  {
  }

  lemma LinkAt(m: Memory, ring: seq<nat>, k: nat)
    requires Closed(m, ring) && k < |ring|
    ensures var next := if k + 1 == |ring| then 0 else k + 1;
            Linked(m, ring[k], ring[next]) && ring[0] == 0 && (forall a | a in ring :: a in m) && Distinct(ring)
  {
    var c := ring + [0];
    assert Linked(m, c[k], c[k + 1]);
  }

  /** The line reached after j steps on a ring of n. */
  function Around(j: nat, n: nat): nat
    requires n > 0
  {
    j % n
  }

  lemma AroundOk(j: nat, n: nat)
    requires n > 0
    ensures Around(j, n) < n && (j < n ==> Around(j, n) == j)
    ensures Around(j + 1, n) == if Around(j, n) + 1 == n then 0 else Around(j, n) + 1
  {
    var q, r := j / n, j % n;
    assert j == n * q + r;
    if j < n { ModUnique(j, n, 0, j); }
    if r + 1 == n {
      assert j + 1 == n * (q + 1);
      ModUnique(j + 1, n, q + 1, 0);
    } else {
      ModUnique(j + 1, n, q, r + 1);
    }
  }

  lemma ModUnique(x: nat, n: nat, q: nat, r: nat)
    requires n > 0 && x == n * q + r && r < n
    ensures x % n == r
  {
    var q', r' := x / n, x % n;
    assert x == n * q' + r' && 0 <= r' < n;
    if q' > q { Mono(n, q + 1, q'); }
    if q' < q { Mono(n, q' + 1, q); }
  }

  lemma Mono(n: nat, a: nat, b: nat)
    requires a <= b
    ensures n * a <= n * b
  {
  }

  /** Lines with a block pasted in, in a memory with the same texts. */
  lemma PasteLines(m: Memory, m': Memory, ring: seq<nat>, n: nat, block: seq<nat>)
    requires |ring| > 0 && 0 < n <= |ring| && (forall a | a in ring :: a in m) && forall a | a in block :: a in m
    requires m'.Keys == m.Keys && forall a | a in m :: m'[a].text == m[a].text
    ensures var ring' := ring[..n] + block + ring[n..];
            && (forall a | a in ring' :: a in m')
            && Lines(m', ring') == Lines(m, ring)[..n - 1] + Texts(m, block) + Lines(m, ring)[n - 1..]
  {
    var ring' := ring[..n] + block + ring[n..];
    assert forall a | a in ring' :: a in ring || a in block;
  }

  lemma CutLines(m: Memory, m': Memory, ring: seq<nat>, i: nat, j: nat)
    requires |ring| > 0 && 0 < i <= j <= |ring| && (forall a | a in ring :: a in m)
    requires forall a | a in ring[..i] + ring[j..] :: a in m' && (a in m ==> m'[a].text == m[a].text)
    ensures Lines(m', ring[..i] + ring[j..]) == Lines(m, ring)[..i - 1] + Lines(m, ring)[j - 1..]
    ensures (forall a | a in ring[i..j] :: a in m) && Texts(m, ring[i..j]) == Lines(m, ring)[i - 1..j - 1]
  {
    var ring' := ring[..i] + ring[j..];
    forall k | 0 <= k < |ring'| ensures ring'[k] in ring' && ring'[k] in ring { }
    forall k | 0 <= k < |ring[i..j]| ensures ring[i..j][k] in ring { }
  }

  lemma InsertOk(m: Memory, ring: seq<nat>, cur: nat, a: nat, text: string)
    requires Ring(m, ring) && cur < |ring| && a !in m && NL !in text && NoBreaks(m)
    ensures var nxt := (ring + [0])[cur + 1]; var m0 := m[a := Line(0, 0, text)];
            && ring[cur] in m && nxt in m && m[ring[cur]].next == nxt
            && var m' := Relink(Relink(m0, ring[cur], a, a, nxt), a, nxt, ring[cur], a);
               var ring' := ring[..cur + 1] + [a] + ring[cur + 1..];
            && Ring(m', ring') && NoBreaks(m')
            && Lines(m', ring') == Lines(m, ring)[..cur] + [text] + Lines(m, ring)[cur..]
  {
    hide Ring, Closed, Tie, Relink, NoBreaks;
    var nxt, m0 := (ring + [0])[cur + 1], m[a := Line(0, 0, text)];
    InsertRing(m, ring, cur, a, text);
    InsertText(m, ring, cur, a, text);
    RelinkPair(m0, ring[cur], a, a, nxt);
  }

  lemma InsertRing(m: Memory, ring: seq<nat>, cur: nat, a: nat, text: string)
    requires Ring(m, ring) && cur < |ring| && a !in m
    ensures var nxt := (ring + [0])[cur + 1]; var m0 := m[a := Line(0, 0, text)];
            && ring[cur] in m && nxt in m && m[ring[cur]].next == nxt && (forall x | x in ring :: x in m)
            && Ring(Tie(Tie(m0, ring[cur], a), a, nxt), ring[..cur + 1] + [a] + ring[cur + 1..])
  {
    hide Distinct;
    var nxt, m0 := (ring + [0])[cur + 1], m[a := Line(0, 0, text)];
    LinkAt(m, ring, cur);
    assert ring[cur] in ring && nxt in ring;
    hide Chain;
    ChainFrame(m, m0, ring + [0]);
    SingleChain(m0, a);
    PasteOk(m0, ring, cur + 1, [a]);
    InsertedAll(m, Tie(Tie(m0, ring[cur], a), a, nxt), ring, cur + 1, a);
  }

  lemma InsertText(m: Memory, ring: seq<nat>, cur: nat, a: nat, text: string)
    requires cur < |ring| && (forall x | x in ring :: x in m) && a !in m && NL !in text && NoBreaks(m)
    requires (ring + [0])[cur + 1] in m
    ensures var m0 := m[a := Line(0, 0, text)];
            && ring[cur] in m
            && var m' := Tie(Tie(m0, ring[cur], a), a, (ring + [0])[cur + 1]);
            var ring' := ring[..cur + 1] + [a] + ring[cur + 1..];
            && NoBreaks(m') && (forall x | x in ring' :: x in m')
            && Lines(m', ring') == Lines(m, ring)[..cur] + [text] + Lines(m, ring)[cur..]
  {
    var nxt, m0 := (ring + [0])[cur + 1], m[a := Line(0, 0, text)];
    assert ring[cur] in ring;
    var m' := Tie(Tie(m0, ring[cur], a), a, nxt);
    TieMade(m0, ring[cur], a);
    TieMade(Tie(m0, ring[cur], a), a, nxt);
    hide Tie, Linked;
    PasteLines(m0, m', ring, cur + 1, [a]);
    assert Lines(m0, ring) == Lines(m, ring);
  }

  lemma SingleChain(m: Memory, a: nat)
    ensures Chain(m, [a]) && Distinct([a])
  {
  }

  lemma InsertedAll(m: Memory, m': Memory, ring: seq<nat>, n: nat, a: nat)
    requires n <= |ring| && m'.Keys == m.Keys + {a} && forall x | x in m :: x in ring
    ensures forall x | x in m' :: x in ring[..n] + [a] + ring[n..]
  {
    assert ring == ring[..n] + ring[n..];
  }
}
