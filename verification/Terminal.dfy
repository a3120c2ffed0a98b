/**
 Line endings on the terminal (io.c): the two one-bit machines that normalise output and input, and
 the buffer scans that carry them out on top of a raw device.
 */
module Terminal {
  /** Text that a machine has produced, and its state bit. */
  datatype Run = Run(text: seq<char>, cr: bool)

  // ----- The machines, as documented

  function OutOne(cr: bool, ch: char): Run {
    if ch == '\r' then Run(['\r', '\n'], true)
    else if ch == '\n' then (if cr then Run([], false) else Run(['\r', '\n'], false))
    else Run([ch], false)
  }

  function InOne(cr: bool, ch: char): Run {
    if ch == '\r' then Run(['\n'], true)
    else if cr && ch == '\n' then Run([], false)
    else Run([ch], false)
  }

  /** Output normalisation of `s`, from state `cr`. */
  function Out(cr: bool, s: seq<char>): Run {
    if s == [] then Run([], cr) else
    var r := Out(cr, s[..|s| - 1]);
    var o := OutOne(r.cr, s[|s| - 1]);
    Run(r.text + o.text, o.cr)
  }

  /** Input normalisation of `s`, from state `cr`. */
  function In(cr: bool, s: seq<char>): Run {
    if s == [] then Run([], cr) else
    var r := In(cr, s[..|s| - 1]);
    var o := InOne(r.cr, s[|s| - 1]);
    Run(r.text + o.text, o.cr)
  }

  // ----- Laws

  lemma OutSnoc(cr: bool, s: seq<char>, ch: char)
    ensures Out(cr, s + [ch]) == Run(Out(cr, s).text + OutOne(Out(cr, s).cr, ch).text, OutOne(Out(cr, s).cr, ch).cr)
  {
    assert (s + [ch])[..|s|] == s;
  }

  lemma InSnoc(cr: bool, s: seq<char>, ch: char)
    ensures In(cr, s + [ch]) == Run(In(cr, s).text + InOne(In(cr, s).cr, ch).text, InOne(In(cr, s).cr, ch).cr)
  {
    assert (s + [ch])[..|s|] == s;
  }

  /** Output does not depend on how the text is split into writes. */
  lemma {:induction false} OutConcat(cr: bool, a: seq<char>, b: seq<char>)
    ensures Out(cr, a + b) == Run(Out(cr, a).text + Out(Out(cr, a).cr, b).text, Out(Out(cr, a).cr, b).cr)
    decreases |b|
  {
    if b == [] {
      assert a + b == a;
    } else {
      var b' := b[..|b| - 1];
      assert a + b == a + b' + [b[|b| - 1]];
      OutConcat(cr, a, b');
      OutSnoc(cr, a + b', b[|b| - 1]);
    }
  }

  /** Input does not depend on how the raw text is split into reads. */
  lemma {:induction false} InConcat(cr: bool, a: seq<char>, b: seq<char>)
    ensures In(cr, a + b) == Run(In(cr, a).text + In(In(cr, a).cr, b).text, In(In(cr, a).cr, b).cr)
    decreases |b|
  {
    if b == [] {
      assert a + b == a;
    } else {
      var b' := b[..|b| - 1];
      assert a + b == a + b' + [b[|b| - 1]];
      InConcat(cr, a, b');
      InSnoc(cr, a + b', b[|b| - 1]);
    }
  }

  lemma NoText(cr: bool)
    ensures In(cr, []) == Run([], cr) && Out(cr, []) == Run([], cr)
  {
  }

  lemma OneChar(cr: bool, ch: char)
    ensures In(cr, [ch]) == InOne(cr, ch) && Out(cr, [ch]) == OutOne(cr, ch)
  {
    assert [] + [ch] == [ch];
    InSnoc(cr, [], ch);
    OutSnoc(cr, [], ch);
  }

  lemma LineEnd()
    ensures In(false, ['\r', '\n']) == Run(['\n'], false) && Out(false, ['\r', '\n']) == Run(['\r', '\n'], false)
  {
    assert ['\r', '\n'] == ['\r'] + ['\n'];
    OneChar(false, '\r');
    InSnoc(false, ['\r'], '\n');
    OutSnoc(false, ['\r'], '\n');
  }

  /** The laws below, for one character. */
  lemma OneCharLaws(cr: bool, ch: char)
    ensures In(false, OutOne(cr, ch).text) == Run(InOne(cr, ch).text, false)
    ensures Out(false, OutOne(cr, ch).text) == Run(OutOne(cr, ch).text, false)
    ensures Out(false, InOne(cr, ch).text) == Run(OutOne(cr, ch).text, false)
    ensures InOne(cr, ch).cr == OutOne(cr, ch).cr
  {
    hide In, Out;
    LineEnd();
    NoText(false);
    OneChar(false, ch);
    OneChar(false, '\n');
  }

  /** Reading back what was written gives the same text as normalising the original directly. */
  lemma {:induction false} WriteThenRead(cr: bool, s: seq<char>)
    ensures In(false, Out(cr, s).text) == Run(In(cr, s).text, false) && In(cr, s).cr == Out(cr, s).cr
    decreases |s|
  {
    hide In, Out, InOne, OutOne;
    NoText(cr);
    NoText(false);
    if s != [] {
      var s', ch := s[..|s| - 1], s[|s| - 1];
      assert s == s' + [ch];
      WriteThenRead(cr, s');
      InSnoc(cr, s', ch);
      OutSnoc(cr, s', ch);
      OneCharLaws(Out(cr, s').cr, ch);
      InConcat(false, Out(cr, s').text, OutOne(Out(cr, s').cr, ch).text);
    }
  }

  /** Writing text that is already normalised for output changes nothing. */
  lemma {:induction false} OutIsIdempotent(cr: bool, s: seq<char>)
    ensures Out(false, Out(cr, s).text) == Run(Out(cr, s).text, false)
    decreases |s|
  {
    hide In, Out, InOne, OutOne;
    NoText(cr);
    NoText(false);
    if s != [] {
      var s', ch := s[..|s| - 1], s[|s| - 1];
      assert s == s' + [ch];
      OutIsIdempotent(cr, s');
      OutSnoc(cr, s', ch);
      OneCharLaws(Out(cr, s').cr, ch);
      OutConcat(false, Out(cr, s').text, OutOne(Out(cr, s').cr, ch).text);
    }
  }

  /** Writing normalised input gives the same as writing the raw text. */
  lemma {:induction false} ReadThenWrite(cr: bool, s: seq<char>)
    ensures Out(false, In(cr, s).text) == Run(Out(cr, s).text, false)
    decreases |s|
  {
    hide In, Out, InOne, OutOne;
    NoText(cr);
    NoText(false);
    if s != [] {
      var s', ch := s[..|s| - 1], s[|s| - 1];
      assert s == s' + [ch];
      ReadThenWrite(cr, s');
      WriteThenRead(cr, s');
      InSnoc(cr, s', ch);
      OutSnoc(cr, s', ch);
      OneCharLaws(Out(cr, s').cr, ch);
      OutConcat(false, In(cr, s').text, InOne(In(cr, s').cr, ch).text);
    }
  }

  // ----- The rules the machines are to follow

  /** Every \r\n, every \r without a \n after it and every \n without a \r before it is one \n. */
  function Normal(s: seq<char>): seq<char> {
    if s == [] then []
    else if s[0] == '\r' then ['\n'] + Normal(if |s| > 1 && s[1] == '\n' then s[2..] else s[1..])
    else [s[0]] + Normal(s[1..])
  }

  /** Every \n is written as \r\n. */
  function Expanded(s: seq<char>): seq<char> {
    if s == [] then [] else (if s[0] == '\n' then ['\r', '\n'] else [s[0]]) + Expanded(s[1..])
  }

  /** The rest of a text after a \r, when a \n there belongs to it. */
  function AfterCr(cr: bool, s: seq<char>): seq<char> { if cr && s != [] && s[0] == '\n' then s[1..] else s }

  /** The input machine gives the text normalised by the rules. */
  lemma {:induction false} InIsNormal(cr: bool, s: seq<char>)
    ensures In(cr, s).text == Normal(AfterCr(cr, s))
    decreases |s|
  {
    hide In;
    NoText(cr);
    if s != [] {
      var rest := s[1..];
      assert s == [s[0]] + rest;
      InConcat(cr, [s[0]], rest);
      OneChar(cr, s[0]);
      InIsNormal(InOne(cr, s[0]).cr, rest);
      if s[0] == '\r' { assert AfterCr(true, rest) == if |s| > 1 && s[1] == '\n' then s[2..] else s[1..]; }
    }
  }

  /** The output machine gives the normalised text with line ends written out. */
  lemma {:induction false} OutIsExpanded(cr: bool, s: seq<char>)
    ensures Out(cr, s).text == Expanded(Normal(AfterCr(cr, s)))
    decreases |s|
  {
    hide Out;
    NoText(cr);
    if s != [] {
      var rest := s[1..];
      assert s == [s[0]] + rest;
      OutConcat(cr, [s[0]], rest);
      OneChar(cr, s[0]);
      OutIsExpanded(OutOne(cr, s[0]).cr, rest);
      if s[0] == '\r' {
        assert AfterCr(true, rest) == if |s| > 1 && s[1] == '\n' then s[2..] else s[1..];
        assert (['\n'] + Normal(AfterCr(true, rest)))[1..] == Normal(AfterCr(true, rest));
      } else if !(cr && s[0] == '\n') {
        assert ([s[0]] + Normal(rest))[1..] == Normal(rest);
      }
    }
  }

  lemma {:induction false} InHasNoCr(cr: bool, s: seq<char>)
    ensures '\r' !in In(cr, s).text && |In(cr, s).text| <= |s|
    decreases |s|
  {
    if s != [] { InHasNoCr(cr, s[..|s| - 1]); }
  }

  /** All of a chunk is swallowed only when it is the second half of a line ending. */
  lemma InIsEmpty(cr: bool, s: seq<char>)
    ensures In(cr, s).text == [] <==> s == [] || (cr && s == ['\n'])
    ensures cr && s == ['\n'] ==> !In(cr, s).cr
  {
    if s != [] {
      assert s == [s[0]] + s[1..];
      InConcat(cr, [s[0]], s[1..]);
      OneChar(cr, s[0]);
      if |s| > 1 {
        var cr1 := In(cr, [s[0]]).cr;
        assert s[1..] == [s[1]] + s[2..];
        InConcat(cr1, [s[1]], s[2..]);
        OneChar(cr1, s[1]);
      }
    }
  }

  /** When raw text is swallowed whole, so is every part of it: a read that waits for a character waits on. */
  lemma {:induction false} SwallowedInParts(cr: bool, a: seq<char>, b: seq<char>)
    requires In(cr, a + b).text == []
    ensures In(cr, a).text == [] && In(In(cr, a).cr, b).text == []
  {
    hide In;
    InConcat(cr, a, b);
    assert |In(cr, a + b).text| == |In(cr, a).text| + |In(In(cr, a).cr, b).text|;
  }

  // ----- Raw devices

  /** A raw device that takes as many characters of each write as `plan` says, or fails; all of them after that. */
  class RawOut {
    var out: seq<char>
    var plan: seq<int>

    /** It takes some part of every write. */
    predicate Willing() reads this { forall i :: 0 <= i < |plan| ==> plan[i] > 0 }

    constructor (p: seq<int>)
      ensures out == [] && plan == p
    {
      out, plan := [], p;
    }

    method Write(b: seq<char>) returns (cnt: int)
      modifies this
      ensures cnt <= |b| && out == old(out) + b[..if cnt < 0 then 0 else cnt]
      ensures old(Willing()) ==> Willing() && (b != [] ==> cnt > 0)
    {
      cnt := |b|;
      if plan != [] {
        cnt := if plan[0] < |b| then plan[0] else |b|;
        plan := plan[1..];
      }
      out := out + b[..if cnt < 0 then 0 else cnt];
    }
  }

  /** iowrite: on a device that always takes something, all of it arrives, in order. */
  method IoWrite(raw: RawOut, b: seq<char>) returns (acc: int)
    modifies raw
    ensures acc <= |b| && (acc >= 0 ==> raw.out == old(raw.out) + b[..acc])
    ensures old(raw.out) <= raw.out <= old(raw.out) + b
    ensures old(raw.Willing()) ==> raw.Willing() && acc == |b| && raw.out == old(raw.out) + b
  {
    acc := 0;
    while acc < |b|
      invariant 0 <= acc <= |b| && raw.out == old(raw.out) + b[..acc] && (old(raw.Willing()) ==> raw.Willing())
    {
      var cnt := raw.Write(b[acc..]);
      if cnt < 0 { return cnt; }
      if cnt == 0 { return acc; }
      assert b[..acc] + b[acc..][..cnt] == b[..acc + cnt];
      acc := acc + cnt;
    }
    assert b[..acc] == b;
  }

  /** ioputc */
  method IoPutc(raw: RawOut, ch: char) returns (r: int)
    modifies raw
    ensures old(raw.Willing()) ==> raw.Willing() && r >= 0 && raw.out == old(raw.out) + [ch]
  {
    var wlen := IoWrite(raw, [ch]);
    r := if wlen < 0 then wlen else if wlen == 0 then -5 else ch as int;
  }

  /**
   A raw device that delivers the characters to come in the given chunks. After that its reads return
   `end`: 0 at the end of input, or a negative error.
   */
  class RawIn {
    var chunks: seq<seq<char>>
    const end: int
    ghost var served: nat            // reads that returned something

    predicate Valid() reads this { end <= 0 && forall i :: 0 <= i < |chunks| ==> chunks[i] != [] }

    constructor (c: seq<seq<char>>, e: int)
      requires e <= 0 && forall i :: 0 <= i < |c| ==> c[i] != []
      ensures Valid() && chunks == c && end == e && served == 0
    {
      chunks, end, served := c, e, 0;
    }

    ghost function Rest(): seq<char> reads this { Flat(chunks) }

    method Read(buf: array<char>, off: nat, len: nat) returns (cnt: int)
      requires Valid() && off + len <= buf.Length
      modifies this, buf
      ensures Valid() && cnt <= len && (cnt > 0 <==> len > 0 && old(Rest()) != [])
      ensures cnt <= 0 ==> cnt == (if len == 0 then 0 else end) && served == old(served) && Rest() == old(Rest())
      ensures cnt > 0 ==> old(Rest()) == buf[off..off + cnt] + Rest() && served == old(served) + 1
      ensures forall i :: 0 <= i < buf.Length && !(off <= i < off + cnt) ==> buf[i] == old(buf[i])
    {
      if len == 0 { return 0; }
      if chunks == [] { return end; }
      var c := chunks[0];
      cnt := if |c| < len then |c| else len;
      for i := 0 to cnt
        invariant chunks == old(chunks) && served == old(served) && forall j :: 0 <= j < i ==> buf[off + j] == c[j]
        invariant forall j :: 0 <= j < buf.Length && !(off <= j < off + i) ==> buf[j] == old(buf[j])
      {
        buf[off + i] := c[i];
      }
      assert buf[off..off + cnt] == c[..cnt];
      assert c == c[..cnt] + c[cnt..];
      chunks := if cnt == |c| then chunks[1..] else [c[cnt..]] + chunks[1..];
      served := served + 1;
      assert cnt < |c| ==> chunks[0] == c[cnt..] && chunks[1..] == old(chunks)[1..];
    }
  }

  function Flat(cs: seq<seq<char>>): seq<char> { if cs == [] then [] else cs[0] + Flat(cs[1..]) }

  /**
   ioread_full: fills the buffer, unless the device comes to its end first; an error takes the place of
   the count.
   */
  method IoReadFull(raw: RawIn, buf: array<char>) returns (r: int)
    requires raw.Valid()
    modifies raw, buf
    ensures raw.Valid()
    ensures |old(raw.Rest())| >= buf.Length ==> r == buf.Length && old(raw.Rest()) == buf[..] + raw.Rest()
    ensures |old(raw.Rest())| < buf.Length ==>
              && buf[..|old(raw.Rest())|] == old(raw.Rest()) && raw.Rest() == []
              && r == if raw.end < 0 then raw.end else |old(raw.Rest())|
  {
    hide Flat;
    ghost var rest := raw.Rest();
    var acc := 0;
    while acc < buf.Length
      invariant raw.Valid() && 0 <= acc <= buf.Length && rest == buf[..acc] + raw.Rest()
      decreases buf.Length - acc
    {
      var cnt := ReadOn(raw, buf, acc);
      if cnt <= 0 { return if cnt < 0 then cnt else acc; }
      acc := acc + cnt;
    }
    assert buf[..acc] == buf[..];
    r := acc;
  }

  /** One turn of its loop. */
  method ReadOn(raw: RawIn, buf: array<char>, acc: nat) returns (cnt: int)
    requires raw.Valid() && acc < buf.Length
    modifies raw, buf
    ensures raw.Valid() && cnt <= buf.Length - acc
    ensures cnt <= 0 ==> cnt == raw.end && raw.Rest() == old(raw.Rest()) == [] && buf[..acc] == old(buf[..acc])
    ensures cnt > 0 ==> buf[..acc + cnt] + raw.Rest() == old(buf[..acc]) + old(raw.Rest())
  {
    hide Flat;
    ghost var was := buf[..acc];
    cnt := raw.Read(buf, acc, buf.Length - acc);
    assert buf[..acc] == was;
    assert cnt > 0 ==> buf[..acc + cnt] == was + buf[acc..acc + cnt];
  }

  // ----- The terminal

  /** One character more. */
  lemma OutNext(cr: bool, buf: seq<char>, k: nat)
    requires k < |buf|
    ensures var r := Out(cr, buf[..k]);
            Out(cr, buf[..k + 1]) == Run(r.text + OutOne(r.cr, buf[k]).text, OutOne(r.cr, buf[k]).cr)
  {
    assert buf[..k + 1] == buf[..k] + [buf[k]];
    OutSnoc(cr, buf[..k], buf[k]);
  }

  /** With `out` and what is pending in the buffer, `buf[..rp]` has been put out after `out0`. */
  ghost predicate Sent(out: seq<char>, buf: seq<char>, wp: nat, rp: nat, out0: seq<char>, c0: bool)
    requires wp <= rp <= |buf|
  {
    out + buf[wp..rp] == out0 + Out(c0, buf[..rp]).text
  }

  lemma Append(a: seq<char>, b: seq<char>, c: seq<char>, d: seq<char>, e: seq<char>)
    requires a + b == c + d
    ensures a + (b + e) == c + (d + e)
  {
    assert a + (b + e) == a + b + e && c + (d + e) == c + d + e;
  }

  lemma SentNothing(buf: seq<char>, out0: seq<char>, c0: bool)
    ensures Sent(out0, buf, 0, 0, out0, c0) && Out(c0, buf[..0]).cr == c0
  {
    assert buf[..0] == [] && buf[0..0] == [];
  }

  lemma SentAll(out: seq<char>, buf: seq<char>, wp: nat, out0: seq<char>, c0: bool)
    requires wp <= |buf| && Sent(out, buf, wp, |buf|, out0, c0)
    ensures out + buf[wp..|buf|] == out0 + Out(c0, buf).text
  {
    assert buf[..|buf|] == buf;
  }

  lemma SentPlain(out: seq<char>, buf: seq<char>, wp: nat, rp: nat, out0: seq<char>, c0: bool)
    requires wp <= rp < |buf| && Sent(out, buf, wp, rp, out0, c0) && buf[rp] != '\r' && buf[rp] != '\n'
    ensures Sent(out, buf, wp, rp + 1, out0, c0)
  {
    hide Out;
    OutNext(c0, buf, rp);
    assert buf[wp..rp + 1] == buf[wp..rp] + [buf[rp]];
    Append(out, buf[wp..rp], out0, Out(c0, buf[..rp]).text, [buf[rp]]);
  }

  lemma SentPair(out: seq<char>, buf: seq<char>, wp: nat, rp: nat, out0: seq<char>, c0: bool)
    requires wp <= rp < |buf| - 1 && Sent(out, buf, wp, rp, out0, c0) && buf[rp] == '\r' && buf[rp + 1] == '\n'
    ensures Sent(out, buf, wp, rp + 2, out0, c0) && !Out(c0, buf[..rp + 2]).cr
  {
    hide Out;
    OutNext(c0, buf, rp);
    OutNext(c0, buf, rp + 1);
    assert buf[wp..rp + 2] == buf[wp..rp] + ['\r', '\n'];
    Append(out, buf[wp..rp], out0, Out(c0, buf[..rp]).text, ['\r', '\n']);
  }

  lemma SentCr(out: seq<char>, buf: seq<char>, wp: nat, rp: nat, out0: seq<char>, c0: bool)
    requires wp <= rp < |buf| && Sent(out, buf, wp, rp, out0, c0) && buf[rp] == '\r'
    ensures Sent(out + buf[wp..rp + 1] + ['\n'], buf, rp + 1, rp + 1, out0, c0)
  {
    hide Out;
    OutNext(c0, buf, rp);
    assert out + buf[wp..rp + 1] + ['\n'] == out + buf[wp..rp] + ['\r', '\n'];
  }

  /** A \n after an emitted line ending is dropped, and nothing else is pending then. */
  lemma SentSkip(out: seq<char>, buf: seq<char>, rp: nat, out0: seq<char>, c0: bool)
    requires rp < |buf| && Sent(out, buf, rp, rp, out0, c0) && buf[rp] == '\n' && Out(c0, buf[..rp]).cr
    ensures Sent(out, buf, rp + 1, rp + 1, out0, c0)
  {
    hide Out;
    OutNext(c0, buf, rp);
    assert buf[rp..rp] == [] == buf[rp + 1..rp + 1];
  }

  lemma SentNl(out: seq<char>, buf: seq<char>, wp: nat, rp: nat, out0: seq<char>, c0: bool)
    requires wp <= rp < |buf| && Sent(out, buf, wp, rp, out0, c0) && buf[rp] == '\n' && !Out(c0, buf[..rp]).cr
    ensures Sent(out + buf[wp..rp] + ['\r'], buf, rp, rp + 1, out0, c0)
  {
    hide Out;
    OutNext(c0, buf, rp);
    assert buf[rp..rp + 1] == ['\n'];
    assert out + buf[wp..rp] + ['\r'] + ['\n'] == out + buf[wp..rp] + ['\r', '\n'];
  }

  class Term {
    const rawOut: RawOut
    const rawIn: RawIn
    var crOut: bool
    var crIn: bool

    /** ioterm_init */
    constructor (o: RawOut, i: RawIn)
      ensures rawOut == o && rawIn == i && !crOut && !crIn
    {
      rawOut, rawIn, crOut, crIn := o, i, false, false;
    }

    /**
     ioterm_write, on a raw device that takes something of every write: it puts out just what the
     machine specifies. A skipped \n at the start of the buffer is missing from the result.
     */
    method Write(buf: seq<char>) returns (acc: int)
      requires rawOut.Willing()
      modifies this`crOut, rawOut
      ensures rawOut.Willing() && rawOut.out == old(rawOut.out) + Out(old(crOut), buf).text
      ensures crOut == Out(old(crOut), buf).cr
      ensures acc == |buf| - if old(crOut) && buf != [] && buf[0] == '\n' then 1 else 0
    {
      hide Out, Sent;
      ghost var c0, out0 := crOut, rawOut.out;
      SentNothing(buf, out0, c0);
      acc := 0;
      var wp, rp := 0, 0;
      var cnt;
      while rp < |buf|
        invariant 0 <= wp <= rp <= |buf| && rawOut.Willing()
        invariant Sent(rawOut.out, buf, wp, rp, out0, c0) && crOut == Out(c0, buf[..rp]).cr
        invariant crOut ==> wp == rp && (0 < rp < |buf| ==> buf[rp] != '\n')
        invariant acc == wp - if rp > 0 && c0 && buf[0] == '\n' then 1 else 0
      {
        var ch := buf[rp];
        OutNext(c0, buf, rp);
        rp := rp + 1;
        if ch == '\r' {
          if rp < |buf| && buf[rp] == '\n' {
            SentPair(rawOut.out, buf, wp, rp - 1, out0, c0);
            crOut := false;
            rp := rp + 1;
          } else {
            SentCr(rawOut.out, buf, wp, rp - 1, out0, c0);
            cnt := IoWrite(rawOut, buf[wp..rp]);
            if cnt < 0 { return cnt; } else if cnt == 0 { return acc; }
            acc := acc + cnt;
            wp := wp + cnt;
            cnt := IoPutc(rawOut, '\n');
            if cnt < 0 { return cnt; }
            crOut := true;
          }
        } else if ch == '\n' {
          if crOut {
            SentSkip(rawOut.out, buf, rp - 1, out0, c0);
            crOut := false;
            wp := wp + 1;
          } else {
            SentNl(rawOut.out, buf, wp, rp - 1, out0, c0);
            ghost var before, pending := rawOut.out, buf[wp..rp - 1];
            if wp != rp - 1 {
              cnt := IoWrite(rawOut, buf[wp..rp - 1]);
              if cnt < 0 { return cnt; } else if cnt == 0 { return acc; }
              acc := acc + cnt;
              wp := wp + cnt;
            }
            assert rawOut.out == before + pending;
            cnt := IoPutc(rawOut, '\r');
            if cnt < 0 { return cnt; }
            crOut := false;
          }
        } else {
          SentPlain(rawOut.out, buf, wp, rp - 1, out0, c0);
          crOut := false;
        }
      }
      assert buf[..rp] == buf;
      SentAll(rawOut.out, buf, wp, out0, c0);
      if rp != wp {
        cnt := IoWrite(rawOut, buf[wp..rp]);
        if cnt < 0 { return cnt; } else if cnt == 0 { return acc; }
        acc := acc + cnt;
      }
    }

    /** The scan of ioterm_read: rewrites the first `cnt` characters of the buffer in place. */
    method Normalize(buf: array<char>, cnt: nat) returns (wp: nat)
      requires cnt <= buf.Length
      modifies this`crIn, buf
      ensures wp <= cnt && buf[..wp] == In(old(crIn), old(buf[..cnt])).text && crIn == In(old(crIn), old(buf[..cnt])).cr
    {
      hide In;
      ghost var raw, c0 := buf[..cnt], crIn;
      NoText(c0);
      assert raw[..0] == [];
      wp := 0;
      var rp := 0;
      while rp < cnt
        invariant 0 <= wp <= rp <= cnt && buf[..wp] == In(c0, raw[..rp]).text && crIn == In(c0, raw[..rp]).cr
        invariant forall i :: rp <= i < cnt ==> buf[i] == raw[i]
      {
        var ch := buf[rp];
        InNext(c0, raw, rp);
        ghost var text := buf[..wp];
        rp := rp + 1;
        if crIn {
          if ch == '\r' {
            buf[wp] := '\n';
            wp := wp + 1;
          } else if ch == '\n' {
            crIn := false;
          } else {
            crIn := false;
            buf[wp] := ch;
            wp := wp + 1;
          }
        } else {
          if ch == '\r' {
            crIn := true;
            buf[wp] := '\n';
            wp := wp + 1;
          } else {
            buf[wp] := ch;
            wp := wp + 1;
          }
        }
        assert buf[..wp] == text + InOne(In(c0, raw[..rp - 1]).cr, ch).text;
      }
      assert raw[..rp] == raw;
    }

    /** A read into a buffer of `len` returns: some of the text to come is not swallowed, or an error follows it. */
    ghost predicate Returns(len: nat)
      reads this, rawIn
    {
      len > 0 && (In(crIn, rawIn.Rest()).text != [] || rawIn.end < 0)
    }

    /**
     One turn of the loop of ioterm_read. Where the read is to return, the turn ends it or uses up raw
     text; where it is not, the turn neither ends it nor changes that, so the loop goes on for good.
     */
    method ReadOnce(buf: array<char>) returns (cnt: int, n: nat)
      requires rawIn.Valid()
      modifies this`crIn, rawIn, buf
      ensures rawIn.Valid() && n <= buf.Length && rawIn.served == old(rawIn.served) + if cnt > 0 then 1 else 0
      ensures buf[..n] + In(crIn, rawIn.Rest()).text == In(old(crIn), old(rawIn.Rest())).text && '\r' !in buf[..n]
      ensures Taken(old(crIn), old(rawIn.Rest()), rawIn.Rest(), buf[..n], crIn)
      ensures cnt <= 0 ==> n == 0 && crIn == old(crIn) && rawIn.Rest() == old(rawIn.Rest())
      ensures cnt > 0 ==> |rawIn.Rest()| < |old(rawIn.Rest())| && (n == 0 ==> old(crIn) && !crIn)
      ensures cnt < 0 ==> cnt == rawIn.end && rawIn.Rest() == []
      ensures old(Returns(buf.Length)) ==> cnt != 0 && (n == 0 && cnt > 0 ==> Returns(buf.Length))
      ensures !old(Returns(buf.Length)) ==> cnt >= 0 && n == 0 && !Returns(buf.Length)
    {
      hide In, Flat;
      NoText(crIn);
      ghost var c0, r0 := crIn, rawIn.Rest();
      cnt := rawIn.Read(buf, 0, buf.Length);
      if cnt < 0 {
        EmptyTaken(c0, r0);
        return cnt, 0;
      }
      ghost var got := buf[..cnt];
      assert buf[0..0 + cnt] == got;
      assert r0 == got + rawIn.Rest();
      n := Normalize(buf, cnt);
      InConcat(c0, got, rawIn.Rest());
      InHasNoCr(c0, got);
      InIsEmpty(c0, got);
      if In(c0, r0).text == [] { SwallowedInParts(c0, got, rawIn.Rest()); }
    }

    /**
     ioterm_read, where it returns: after at most two non-empty raw reads. The result is the raw
     device's error exactly when the raw text to come is swallowed whole; otherwise it is the
     normalised form of just the raw text it took, never empty and without \r.
     */
    method Read(buf: array<char>) returns (r: int)
      requires rawIn.Valid() && Returns(buf.Length)
      modifies this`crIn, rawIn, buf
      ensures rawIn.Valid() && r != 0 && r <= buf.Length && rawIn.served <= old(rawIn.served) + 2
      ensures r < 0 <==> old(In(crIn, rawIn.Rest()).text) == []
      ensures r < 0 ==> r == rawIn.end && rawIn.Rest() == []
      ensures var n := if r < 0 then 0 else r;
              && Taken(old(crIn), old(rawIn.Rest()), rawIn.Rest(), buf[..n], crIn) && '\r' !in buf[..n]
              && buf[..n] + In(crIn, rawIn.Rest()).text == In(old(crIn), old(rawIn.Rest())).text
      ensures r > 0 ==> |rawIn.Rest()| < |old(rawIn.Rest())|
    {
      hide In, Flat, Taken;
      ghost var c0, r0 := crIn, rawIn.Rest();
      NoText(true);
      NoText(false);
      var cnt, n := ReadOnce(buf);
      while cnt >= 0 && n == 0
        invariant rawIn.Valid() && 0 <= n <= buf.Length && Taken(c0, r0, rawIn.Rest(), buf[..n], crIn)
        invariant buf[..n] + In(crIn, rawIn.Rest()).text == In(c0, r0).text && '\r' !in buf[..n]
        invariant cnt < 0 ==> n == 0 && cnt == rawIn.end && rawIn.Rest() == []
        invariant n > 0 ==> |rawIn.Rest()| < |r0|
        invariant cnt >= 0 && n == 0 ==> Returns(buf.Length) && !crIn && rawIn.served == old(rawIn.served) + 1
        invariant rawIn.served <= old(rawIn.served) + 2
        decreases |rawIn.Rest()| + if cnt < 0 || n > 0 then 0 else 1
      {
        ghost var c1, r1 := crIn, rawIn.Rest();
        assert buf[..n] == [];
        cnt, n := ReadOnce(buf);
        TakenTwice(c0, r0, c1, r1, buf[..n], crIn, rawIn.Rest());
      }
      r := if cnt < 0 then cnt else n;
    }
  }

  lemma EmptyTaken(c: bool, raw: seq<char>)
    ensures Taken(c, raw, raw, [], c)
  {
    assert raw[..|raw| - |raw|] == [];
  }

  /** Reading took the raw text `raw0` down to `raw`, and gave its normalised form. */
  ghost predicate Taken(c0: bool, raw0: seq<char>, raw: seq<char>, text: seq<char>, c: bool) {
    |raw| <= |raw0| && raw0 == raw0[..|raw0| - |raw|] + raw && In(c0, raw0[..|raw0| - |raw|]) == Run(text, c)
  }

  lemma TakenTwice(c0: bool, r0: seq<char>, c1: bool, r1: seq<char>, text: seq<char>, c2: bool, r2: seq<char>)
    requires Taken(c0, r0, r1, [], c1) && Taken(c1, r1, r2, text, c2)
    ensures Taken(c0, r0, r2, text, c2)
  {
    hide In;
    var a, b := r0[..|r0| - |r1|], r1[..|r1| - |r2|];
    InConcat(c0, a, b);
    assert r0[..|r0| - |r2|] == a + b;
  }

  lemma InNext(cr: bool, raw: seq<char>, k: nat)
    requires k < |raw|
    ensures var r := In(cr, raw[..k]);
            In(cr, raw[..k + 1]) == Run(r.text + InOne(r.cr, raw[k]).text, InOne(r.cr, raw[k]).cr)
  {
    assert raw[..k + 1] == raw[..k] + [raw[k]];
    InSnoc(cr, raw[..k], raw[k]);
  }

  // ----- Whole conversations

  /** Any splitting of a text into writes puts out the same. */
  method WriteAll(t: Term, bufs: seq<seq<char>>)
    requires t.rawOut.Willing()
    modifies t`crOut, t.rawOut
    ensures t.rawOut.out == old(t.rawOut.out) + Out(old(t.crOut), Flat(bufs)).text
    ensures t.crOut == Out(old(t.crOut), Flat(bufs)).cr
    decreases |bufs|
  {
    hide Out;
    NoText(t.crOut);
    if bufs != [] {
      ghost var c0 := t.crOut;
      var _ := t.Write(bufs[0]);
      WriteAll(t, bufs[1..]);
      OutConcat(c0, bufs[0], Flat(bufs[1..]));
    }
  }

  /**
   Reading until the device reports its end, through buffers of any size and raw chunks of any sizes,
   gives the normalised text.
   */
  method ReadAll(t: Term, size: nat) returns (text: seq<char>)
    requires t.rawIn.Valid() && t.rawIn.end < 0 && size > 0
    modifies t`crIn, t.rawIn
    ensures text == In(old(t.crIn), old(t.rawIn.Rest())).text && '\r' !in text && t.rawIn.Rest() == []
  {
    hide In, Flat;
    text := [];
    ghost var c0, r0 := t.crIn, t.rawIn.Rest();
    var buf := new char[size];
    var r := t.Read(buf);
    while r > 0
      invariant t.rawIn.Valid() && r <= size && r != 0
      invariant text + (if r > 0 then buf[..r] else []) + In(t.crIn, t.rawIn.Rest()).text == In(c0, r0).text
      invariant r < 0 ==> In(t.crIn, t.rawIn.Rest()).text == [] && t.rawIn.Rest() == []
      decreases |t.rawIn.Rest()| + if r > 0 then 1 else 0
    {
      text := text + buf[..r];
      r := t.Read(buf);
    }
    InHasNoCr(c0, r0);
  }
}
