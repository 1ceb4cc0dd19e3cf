/** Streaming UTF-8 repair: the incremental decoder that stands between the generated token
    pieces and the token callback (`emit_complete_utf8` in llama_generator.cpp).

    The reference is `Repair`, a one-shot decoder written only in terms of the grammar of section 4
    of RFC 3629. The incremental decoder is a class that keeps undecided bytes in `pending`. */
module Utf8Stream {

  import opened Base

  type Bytes = seq<byte>

  // U+FFFD REPLACEMENT CHARACTER
  const REPLACEMENT: Bytes := [0xEF, 0xBF, 0xBD]

  // ---------------------------------------------------------------- RFC 3629, section 4

  predicate Tail(b: byte) { 0x80 <= b <= 0xBF }

  /** The production UTF8-char. */
  predicate Utf8Char(s: Bytes) {
    || (|s| == 1 && s[0] <= 0x7F)
    || (|s| == 2 && 0xC2 <= s[0] <= 0xDF && Tail(s[1]))
    || (|s| == 3 && Tail(s[1]) && Tail(s[2]) && Utf8Three(s[0], s[1]))
    || (|s| == 4 && Tail(s[1]) && Tail(s[2]) && Tail(s[3]) && Utf8Four(s[0], s[1]))
  }

  predicate Utf8Three(lead: byte, second: byte) {
    || (lead == 0xE0 && 0xA0 <= second <= 0xBF)
    || (0xE1 <= lead <= 0xEC)
    || (lead == 0xED && 0x80 <= second <= 0x9F)
    || (0xEE <= lead <= 0xEF)
  }

  predicate Utf8Four(lead: byte, second: byte) {
    || (lead == 0xF0 && 0x90 <= second <= 0xBF)
    || (0xF1 <= lead <= 0xF3)
    || (lead == 0xF4 && 0x80 <= second <= 0x8F)
  }

  /** The production UTF8-octets: any number of characters in a row. */
  ghost predicate WellFormed(s: Bytes) {
    exists chars: seq<Bytes> :: AllChars(chars) && Flatten(chars) == s
  }

  predicate AllChars(chars: seq<Bytes>) {
    forall i :: 0 <= i < |chars| ==> Utf8Char(chars[i])
  }

  function Flatten(pieces: seq<Bytes>): Bytes {
    if pieces == [] then [] else pieces[0] + Flatten(pieces[1..])
  }

  lemma {:induction false} FlattenConcat(a: seq<Bytes>, b: seq<Bytes>)
    ensures Flatten(a + b) == Flatten(a) + Flatten(b)
  {
    if a == [] {
      assert a + b == b;
    } else {
      FlattenConcat(a[1..], b);
      assert (a + b)[1..] == a[1..] + b;
      Assoc(a[0], Flatten(a[1..]), Flatten(b));
    }
  }

  lemma {:induction false} FlattenOne(p: Bytes)
    ensures Flatten([p]) == p
  {
  }

  // ---------------------------------------------------------------- one-shot reference

  /** Length of the character `s` starts with, 0 if it starts with none. */
  function CharLength(s: Bytes): (n: nat)
    ensures n <= |s| && n <= 4
    ensures n > 0 ==> Utf8Char(s[..n])
  {
    if |s| >= 1 && Utf8Char(s[..1]) then 1
    else if |s| >= 2 && Utf8Char(s[..2]) then 2
    else if |s| >= 3 && Utf8Char(s[..3]) then 3
    else if |s| >= 4 && Utf8Char(s[..4]) then 4
    else 0
  }

  lemma {:induction false} CharLengthFinds(s: Bytes, k: nat)
    requires k <= |s| && Utf8Char(s[..k])
    ensures CharLength(s) == k
  {
    var n := CharLength(s);
    assert s[..k][0] == s[0];
    if n > 0 { assert s[..n][0] == s[0]; }
  }

  /** What the decoder emits for the front of `s`: the character there, or U+FFFD for a byte that
      starts no character. */
  function Head(s: Bytes): Bytes {
    if CharLength(s) == 0 then REPLACEMENT else s[..CharLength(s)]
  }

  function Advance(s: Bytes): (k: nat)
    requires s != []
    ensures 1 <= k <= |s|
  {
    if CharLength(s) == 0 then 1 else CharLength(s)
  }

  function Repair(s: Bytes): Bytes
    decreases |s|
  {
    if s == [] then [] else Head(s) + Repair(s[Advance(s)..])
  }

  lemma {:induction false} CharLengthOfConcat(c: Bytes, t: Bytes)
    requires Utf8Char(c)
    ensures CharLength(c + t) == |c|
  {
    assert (c + t)[..|c|] == c;
    CharLengthFinds(c + t, |c|);
  }

  // ---------------------------------------------------------------- facts about the reference

  lemma {:induction false} WellFormedConcat(s: Bytes, t: Bytes)
    requires WellFormed(s) && WellFormed(t)
    ensures WellFormed(s + t)
  {
    var a :| AllChars(a) && Flatten(a) == s;
    var b :| AllChars(b) && Flatten(b) == t;
    FlattenConcat(a, b);
    assert AllChars(a + b);
  }

  lemma {:induction false} CharIsWellFormed(c: Bytes)
    requires Utf8Char(c)
    ensures WellFormed(c)
  {
    FlattenOne(c);
    assert AllChars([c]);
  }

  lemma {:induction false} HeadIsChar(s: Bytes)
    ensures Utf8Char(Head(s))
  {
  }

  lemma {:induction false} RepairIsWellFormed(s: Bytes)
    ensures WellFormed(Repair(s))
    decreases |s|
  {
    if s == [] {
      assert AllChars([]) && Flatten([]) == [];
    } else {
      RepairIsWellFormed(s[Advance(s)..]);
      HeadIsChar(s);
      CharIsWellFormed(Head(s));
      WellFormedConcat(Head(s), Repair(s[Advance(s)..]));
    }
  }

  lemma {:induction false} RepairKeepsChars(chars: seq<Bytes>)
    requires AllChars(chars)
    ensures Repair(Flatten(chars)) == Flatten(chars)
  {
    if chars != [] {
      var c, t := chars[0], Flatten(chars[1..]);
      RepairKeepsChars(chars[1..]);
      CharLengthOfConcat(c, t);
      assert (c + t)[..|c|] == c && (c + t)[|c|..] == t;
    }
  }

  /** Well-formed input passes unchanged, and nothing else does. */
  lemma {:induction false} RepairFixesExactlyWellFormed(s: Bytes)
    ensures Repair(s) == s <==> WellFormed(s)
  {
    if WellFormed(s) {
      var chars :| AllChars(chars) && Flatten(chars) == s;
      RepairKeepsChars(chars);
    }
    if Repair(s) == s {
      RepairIsWellFormed(s);
    }
  }

  lemma {:induction false} RepairIsIdempotent(s: Bytes)
    ensures Repair(Repair(s)) == Repair(s)
  {
    RepairIsWellFormed(s);
    RepairFixesExactlyWellFormed(Repair(s));
  }

  // ---------------------------------------------------------------- what repairing means

  /** Some prefix is a character. */
  ghost predicate StartsChar(s: Bytes) {
    exists n :: 0 <= n <= |s| && Utf8Char(s[..n])
  }

  /** At the front of `s`, `piece` becomes `out`: a character is copied, one byte that starts no character
      there becomes the encoding of U+FFFD. */
  ghost predicate Becomes(s: Bytes, piece: Bytes, out: Bytes) {
    && piece <= s
    && ((Utf8Char(piece) && out == piece)
        || (|piece| == 1 && !StartsChar(s) && out == Encode(0xFFFD)))
  }

  /** `s` cut into pieces, with what each of them becomes. */
  ghost predicate Decomposes(s: Bytes, pieces: seq<Bytes>, outs: seq<Bytes>) {
    if pieces == [] then s == [] && outs == []
    else
      && outs != [] && Becomes(s, pieces[0], outs[0])
      && Decomposes(s[|pieces[0]|..], pieces[1..], outs[1..])
  }

  /** `out` is a repair of `s`. */
  ghost predicate Repairs(s: Bytes, out: Bytes) {
    exists pieces, outs :: Decomposes(s, pieces, outs) && Flatten(outs) == out
  }

  lemma {:induction false} ReplacementIsFFFD()
    ensures ScalarValue(0xFFFD) && REPLACEMENT == Encode(0xFFFD)
  {
  }

  lemma {:induction false} HeadBecomes(s: Bytes)
    requires s != []
    ensures Becomes(s, s[..Advance(s)], Head(s))
  {
    ReplacementIsFFFD();
    if CharLength(s) == 0 && StartsChar(s) {
      var n :| 0 <= n <= |s| && Utf8Char(s[..n]);
      CharLengthFinds(s, n);
    }
  }

  lemma {:induction false} RepairDecomposes(s: Bytes) returns (pieces: seq<Bytes>, outs: seq<Bytes>)
    ensures Decomposes(s, pieces, outs) && Flatten(outs) == Repair(s)
    decreases |s|
  {
    if s == [] {
      pieces, outs := [], [];
    } else {
      var p, o := RepairDecomposes(s[Advance(s)..]);
      HeadBecomes(s);
      pieces, outs := [s[..Advance(s)]] + p, [Head(s)] + o;
    }
  }

  /** Two characters at one place are the same one. */
  lemma {:induction false} OneWayOn(s: Bytes, piece: Bytes, out: Bytes, piece': Bytes, out': Bytes)
    requires Becomes(s, piece, out) && Becomes(s, piece', out')
    ensures piece == piece' && out == out'
  {
    assert s[..|piece|] == piece && s[..|piece'|] == piece';
    if Utf8Char(piece) { CharLengthFinds(s, |piece|); }
    if Utf8Char(piece') { CharLengthFinds(s, |piece'|); }
  }

  /** There is one way to cut a byte string into characters and bytes that start none. */
  lemma {:induction false} DecompositionIsUnique(s: Bytes, pieces: seq<Bytes>, outs: seq<Bytes>, pieces': seq<Bytes>,
                                                 outs': seq<Bytes>)
    requires Decomposes(s, pieces, outs) && Decomposes(s, pieces', outs')
    ensures pieces == pieces' && outs == outs'
    decreases |pieces|
  {
    if pieces != [] && pieces' != [] {
      OneWayOn(s, pieces[0], outs[0], pieces'[0], outs'[0]);
      DecompositionIsUnique(s[|pieces[0]|..], pieces[1..], outs[1..], pieces'[1..], outs'[1..]);
      assert pieces == [pieces[0]] + pieces[1..] && pieces' == [pieces'[0]] + pieces'[1..];
      assert outs == [outs[0]] + outs[1..] && outs' == [outs'[0]] + outs'[1..];
    }
  }

  /** The decoder does exactly this and nothing else, to every byte string. */
  lemma {:induction false} RepairsExactly(s: Bytes, out: Bytes)
    ensures Repairs(s, out) <==> out == Repair(s)
  {
    var pieces, outs := RepairDecomposes(s);
    if Repairs(s, out) {
      var p, o :| Decomposes(s, p, o) && Flatten(o) == out;
      DecompositionIsUnique(s, pieces, outs, p, o);
    }
  }

  // ---------------------------------------------------------------- the code's own classification

  /** The masked comparison (byte & 0xC0) == 0x80: the two top bits are 10. */
  predicate IsContinuation(b: byte) { b / 64 == 2 }

  /** Width announced by a lead byte, 0 for a byte that cannot lead. */
  function LeadWidth(lead: byte): (w: nat)
    ensures w <= 4
  {
    if lead <= 0x7F then 1
    else if lead >= 0xC2 && lead <= 0xDF then 2
    else if lead >= 0xE0 && lead <= 0xEF then 3
    else if lead >= 0xF0 && lead <= 0xF4 then 4
    else 0
  }

  /** The announced width is the length of every character with that lead byte, and a byte that announces
      none begins no character. */
  lemma {:induction false} LeadWidthMeans(lead: byte)
    ensures forall c :: Utf8Char(c) && c[0] == lead ==> |c| == LeadWidth(lead)
    ensures LeadWidth(lead) > 0 <==> exists c :: Utf8Char(c) && c[0] == lead
  {
    var second := if lead == 0xE0 || lead == 0xF0 then 0xA0 else 0x80;
    var c := [lead, second, 0x80, 0x80][..LeadWidth(lead)];
    assert LeadWidth(lead) > 0 ==> Utf8Char(c) && c[0] == lead;
  }

  /** Bytes that may still become a character once more input arrives. */
  predicate Undecided(s: Bytes) {
    s != [] && |s| < LeadWidth(s[0])
  }

  lemma {:induction false} CharHasLeadWidth(s: Bytes, n: nat)
    requires n <= |s| && Utf8Char(s[..n])
    ensures s != [] && LeadWidth(s[0]) == n
  {
    assert s[..n][0] == s[0];
  }

  /** Once the announced width is available, appending more bytes changes no decision. */
  lemma {:induction false} DecisionIsLocal(s: Bytes, more: Bytes)
    requires s != [] && !Undecided(s)
    ensures CharLength(s + more) == CharLength(s)
  {
    var m := CharLength(s + more);
    if m != 0 {
      CharHasLeadWidth(s + more, m);
      assert (s + more)[..m] == s[..m];
      CharLengthFinds(s, m);
    }
  }

  /** The validity test of the loop body, spelled as in the source. */
  method Validate(s: Bytes, width: nat) returns (valid: bool)
    requires s != [] && width == LeadWidth(s[0]) && 1 <= width <= |s|
    ensures valid <==> Utf8Char(s[..width])
  {
    var lead := s[0];
    valid := true;
    var offset := 1;
    while offset < width
      invariant 1 <= offset <= width
      invariant valid <==> forall k :: 1 <= k < offset ==> Tail(s[k])
    {
      assert IsContinuation(s[offset]) <==> Tail(s[offset]);
      valid := valid && IsContinuation(s[offset]);
      offset := offset + 1;
    }
    if valid && width == 3 {
      var second := s[1];
      valid := !((lead == 0xE0 && second < 0xA0) || (lead == 0xED && second >= 0xA0));
    }
    if valid && width == 4 {
      var second := s[1];
      valid := !((lead == 0xF0 && second < 0x90) || (lead == 0xF4 && second > 0x8F));
    }
    assert forall k :: 0 <= k < width ==> s[..width][k] == s[k];
  }

  // ---------------------------------------------------------------- the incremental decoder

  datatype Drained = Drained(out: Bytes, rest: Bytes)

  /** Repairs from the front; a non-final call stops at bytes that are still undecided. */
  function Drain(s: Bytes, final: bool): Drained
    decreases |s|
  {
    if s == [] || (!final && Undecided(s)) then Drained([], s)
    else
      var d := Drain(s[Advance(s)..], final);
      Drained(Head(s) + d.out, d.rest)
  }

  /** A final call is the one-shot decoder. */
  lemma {:induction false} DrainFinal(s: Bytes)
    ensures Drain(s, true) == Drained(Repair(s), [])
    decreases |s|
  {
    if s != [] { DrainFinal(s[Advance(s)..]); }
  }

  /** A non-final call keeps at most three bytes, all of them undecided. */
  lemma {:induction false} DrainKeepsAtMostThree(s: Bytes)
    ensures Drain(s, false).rest == [] || Undecided(Drain(s, false).rest)
    ensures |Drain(s, false).rest| <= 3
    decreases |s|
  {
    if s != [] && !Undecided(s) { DrainKeepsAtMostThree(s[Advance(s)..]); }
  }

  /** Cut invariance: whatever follows, what a non-final call emitted is what the one-shot decoder
      would have emitted there, and the bytes it kept are all that later calls need. */
  lemma {:induction false} DrainThenMore(s: Bytes, more: Bytes)
    ensures Repair(s + more) == Drain(s, false).out + Repair(Drain(s, false).rest + more)
    decreases |s|
  {
    if s == [] || Undecided(s) {
      assert [] + Repair(s + more) == Repair(s + more);
    } else {
      var k := Advance(s);
      DecisionIsLocal(s, more);
      DrainThenMore(s[k..], more);
      RepairAfter(s, more);
      var d := Drain(s[k..], false);
      assert Drain(s, false) == Drained(Head(s) + d.out, d.rest);
      Assoc(Head(s), d.out, Repair(d.rest + more));
    }
  }

  lemma {:induction false} RepairAfter(s: Bytes, more: Bytes)
    requires s != [] && CharLength(s + more) == CharLength(s)
    ensures Repair(s + more) == Head(s) + Repair(s[Advance(s)..] + more)
  {
    var k := Advance(s);
    assert (s + more)[k..] == s[k..] + more;
    assert (s + more)[..k] == s[..k];
  }

  lemma {:induction false} DrainIsWellFormed(s: Bytes, final: bool)
    ensures WellFormed(Drain(s, final).out)
    decreases |s|
  {
    if s == [] || (!final && Undecided(s)) {
      assert AllChars([]) && Flatten([]) == [];
    } else {
      var t := s[Advance(s)..];
      DrainIsWellFormed(t, final);
      HeadIsChar(s);
      CharIsWellFormed(Head(s));
      WellFormedConcat(Head(s), Drain(t, final).out);
    }
  }

  /** The loop body: one character copied, one byte replaced, or a non-final call left waiting. */
  method DecodeNext(p: Bytes, final: bool, output: Bytes, consumed: nat)
    returns (output': Bytes, consumed': nat, undecided: bool)
    requires consumed < |p| && Progress(p, final, output, consumed)
    ensures consumed' <= |p| && Progress(p, final, output', consumed')
    ensures if undecided then consumed' == consumed && !final && Undecided(p[consumed..]) else consumed' > consumed
  {
    var width := LeadWidth(p[consumed]);
    if width == 0 {
      ProgressReplaces(p, final, output, consumed);
      return output + REPLACEMENT, consumed + 1, false;
    }
    if |p| - consumed < width {
      if final {
        ProgressReplaces(p, final, output, consumed);
        return output + REPLACEMENT, consumed + 1, false;
      }
      return output, consumed, true;
    }
    var valid := Validate(p[consumed..], width);
    if !valid {
      ProgressReplaces(p, final, output, consumed);
      return output + REPLACEMENT, consumed + 1, false;
    }
    ProgressCopies(p, final, output, consumed, width);
    return output + p[consumed..][..width], consumed + width, false;
  }

  class Emitter {
    var pending: Bytes
    var callbacks: seq<Bytes>   // arguments the token callback received, in order

    constructor ()
      ensures pending == [] && callbacks == []
    {
      pending, callbacks := [], [];
    }

    /** emit_complete_utf8: decodes as much of `pending` as is decided (all of it if `final`). */
    method Emit(final: bool)
      modifies this
      ensures pending == Drain(old(pending), final).rest
      ensures callbacks == Called(old(callbacks), Drain(old(pending), final).out)
    {
      var output: Bytes := [];
      var consumed := 0;
      assert pending[0..] == pending;
      while consumed < |pending|
        invariant 0 <= consumed <= |pending|
        invariant pending == old(pending) && callbacks == old(callbacks)
        invariant Progress(pending, final, output, consumed)
      {
        var undecided;
        output, consumed, undecided := DecodeNext(pending, final, output, consumed);
        if undecided {
          break;
        }
      }
      ProgressEnds(pending, final, output, consumed);
      pending := pending[consumed..];
      if output != [] {
        callbacks := callbacks + [output];
      }
    }
  }

  /** `output` and the bytes from `consumed` on still add up to the answer for `p`. */
  predicate Progress(p: Bytes, final: bool, output: Bytes, consumed: nat)
    requires consumed <= |p|
  {
    && Drain(p, final).out == output + Drain(p[consumed..], final).out
    && Drain(p, final).rest == Drain(p[consumed..], final).rest
  }

  lemma {:induction false} ProgressReplaces(p: Bytes, final: bool, output: Bytes, consumed: nat)
    requires consumed < |p| && Progress(p, final, output, consumed)
    requires final || |p| - consumed >= LeadWidth(p[consumed])
    requires forall w :: w == LeadWidth(p[consumed]) && w <= |p| - consumed ==> !Utf8Char(p[consumed..][..w])
    ensures Progress(p, final, output + REPLACEMENT, consumed + 1)
  {
    var s := p[consumed..];
    if CharLength(s) != 0 {
      CharHasLeadWidth(s, CharLength(s));
    }
    assert s[1..] == p[consumed + 1..];
  }

  lemma {:induction false} ProgressCopies(p: Bytes, final: bool, output: Bytes, consumed: nat, n: nat)
    requires consumed + n <= |p| && Progress(p, final, output, consumed)
    requires Utf8Char(p[consumed..][..n])
    ensures Progress(p, final, output + p[consumed..][..n], consumed + n)
  {
    var s := p[consumed..];
    DrainCopies(s, final, n);
    assert s[n..] == p[consumed + n..];
    Assoc(output, s[..n], Drain(s[n..], final).out);
  }

  lemma {:induction false} DrainCopies(s: Bytes, final: bool, n: nat)
    requires n <= |s| && Utf8Char(s[..n])
    ensures Drain(s, final) == Drained(s[..n] + Drain(s[n..], final).out, Drain(s[n..], final).rest)
  {
    CharHasLeadWidth(s, n);
    CharLengthFinds(s, n);
  }

  lemma {:induction false} Assoc(a: Bytes, b: Bytes, c: Bytes)
    ensures a + (b + c) == (a + b) + c
  {
  }

  lemma {:induction false} ProgressEnds(p: Bytes, final: bool, output: Bytes, consumed: nat)
    requires consumed <= |p| && Progress(p, final, output, consumed)
    requires consumed == |p| || (!final && Undecided(p[consumed..]))
    ensures Drain(p, final) == Drained(output, p[consumed..])
  {
    assert output + [] == output;
  }

  /** The decode loop of `generate`: every token piece is appended and decoded, then a final call
      flushes. However the byte string is cut into pieces, the callbacks receive its repair. */
  method StreamPieces(pieces: seq<Bytes>) returns (callbacks: seq<Bytes>)
    ensures Flatten(callbacks) == Repair(Flatten(pieces))
    ensures Repairs(Flatten(pieces), Flatten(callbacks))
    ensures AllWellFormed(callbacks)
  {
    RepairsExactly(Flatten(pieces), Repair(Flatten(pieces)));
    var e := new Emitter();
    var i := 0;
    assert pieces[0..] == pieces && [] + Flatten(pieces) == Flatten(pieces);
    assert Flatten([]) + Repair(Flatten(pieces)) == Repair(Flatten(pieces));
    while i < |pieces|
      invariant 0 <= i <= |pieces|
      invariant |e.pending| <= 3
      invariant AllWellFormed(e.callbacks)
      invariant Repair(Flatten(pieces)) == Flatten(e.callbacks) + Repair(e.pending + Flatten(pieces[i..]))
    {
      StreamStep(e.pending, e.callbacks, pieces[i..]);
      assert pieces[i..][1..] == pieces[i + 1..];
      e.pending := e.pending + pieces[i];
      e.Emit(false);
      i := i + 1;
    }
    StreamEnd(e.pending, e.callbacks);
    assert e.pending + Flatten(pieces[i..]) == e.pending;
    e.Emit(true);
    callbacks := e.callbacks;
  }

  ghost predicate AllWellFormed(callbacks: seq<Bytes>) {
    forall i :: 0 <= i < |callbacks| ==> callbacks[i] != [] && WellFormed(callbacks[i])
  }

  function Called(callbacks: seq<Bytes>, out: Bytes): seq<Bytes> {
    if out == [] then callbacks else callbacks + [out]
  }

  lemma {:induction false} StreamStep(pending: Bytes, callbacks: seq<Bytes>, pieces: seq<Bytes>)
    requires AllWellFormed(callbacks) && pieces != []
    ensures var d := Drain(pending + pieces[0], false);
            && AllWellFormed(Called(callbacks, d.out))
            && |d.rest| <= 3
            && Flatten(callbacks) + Repair(pending + Flatten(pieces))
               == Flatten(Called(callbacks, d.out)) + Repair(d.rest + Flatten(pieces[1..]))
  {
    var p, later := pending + pieces[0], Flatten(pieces[1..]);
    var d := Drain(p, false);
    DrainIsWellFormed(p, false);
    DrainKeepsAtMostThree(p);
    calc {
      Flatten(callbacks) + Repair(pending + Flatten(pieces));
      { Assoc(pending, pieces[0], later); }
      Flatten(callbacks) + Repair(p + later);
      { DrainThenMore(p, later); }
      Flatten(callbacks) + (d.out + Repair(d.rest + later));
      { Assoc(Flatten(callbacks), d.out, Repair(d.rest + later)); }
      (Flatten(callbacks) + d.out) + Repair(d.rest + later);
      { FlattenAppend(callbacks, d.out); }
      Flatten(Called(callbacks, d.out)) + Repair(d.rest + later);
    }
  }

  lemma {:induction false} StreamEnd(pending: Bytes, callbacks: seq<Bytes>)
    requires AllWellFormed(callbacks)
    ensures var d := Drain(pending, true);
            && AllWellFormed(Called(callbacks, d.out))
            && Flatten(Called(callbacks, d.out)) == Flatten(callbacks) + Repair(pending)
  {
    DrainFinal(pending);
    DrainIsWellFormed(pending, true);
    FlattenAppend(callbacks, Repair(pending));
  }

  lemma {:induction false} FlattenAppend(callbacks: seq<Bytes>, out: Bytes)
    ensures Flatten(Called(callbacks, out)) == Flatten(callbacks) + out
  {
    FlattenConcat(callbacks, [out]);
    FlattenOne(out);
  }

  // ---------------------------------------------------------------- scalar values

  predicate ScalarValue(u: int) { 0 <= u <= 0xD7FF || 0xE000 <= u <= 0x10FFFF }

  /** The encoding table of section 3 of RFC 3629: six bits to a byte, the lead first. */
  function Encode(u: int): Bytes
    requires ScalarValue(u)
  {
    if u <= 0x7F then [u]
    else if u <= 0x7FF then [0xC0 + u / 64, 0x80 + u % 64]
    else if u <= 0xFFFF then [0xE0 + u / 64 / 64, 0x80 + u / 64 % 64, 0x80 + u % 64]
    else [0xF0 + u / 64 / 64 / 64, 0x80 + u / 64 / 64 % 64, 0x80 + u / 64 % 64, 0x80 + u % 64]
  }

  /** The examples of section 7 of RFC 3629: U+2262, U+0391, U+D55C, U+65E5, U+233B4 and the byte order mark. */
  lemma {:induction false} RfcExamples()
    ensures Encode(0x2262) == [0xE2, 0x89, 0xA2] && Encode(0x391) == [0xCE, 0x91]
    ensures Encode(0xD55C) == [0xED, 0x95, 0x9C] && Encode(0x65E5) == [0xE6, 0x97, 0xA5]
    ensures Encode(0x233B4) == [0xF0, 0xA3, 0x8E, 0xB4] && Encode(0xFEFF) == [0xEF, 0xBB, 0xBF]
  {
  }

  /** Inverse of the table: the scalar value a character stands for. */
  function Decode(s: Bytes): int
    requires Utf8Char(s)
  {
    if |s| == 1 then s[0]
    else if |s| == 2 then Join(s[0] - 0xC0, s[1])
    else if |s| == 3 then Join(Join(s[0] - 0xE0, s[1]), s[2])
    else Join(Join(Join(s[0] - 0xF0, s[1]), s[2]), s[3])
  }

  function Join(high: int, b: byte): int { 64 * high + (b - 0x80) }

  lemma {:induction false} JoinSplits(high: int, b: byte)
    requires Tail(b)
    ensures Join(high, b) / 64 == high && 0x80 + Join(high, b) % 64 == b
  {
  }

  /** The characters that pass the decoder are exactly the encodings of Unicode scalar values: no
      overlong form, no surrogate, nothing above U+10FFFF. */
  lemma {:induction false} EncodeIsChar(u: int)
    requires ScalarValue(u)
    ensures Utf8Char(Encode(u)) && Decode(Encode(u)) == u
  {
    var s := Encode(u);
    if u <= 0x7F {
    } else if u <= 0x7FF {
      assert |s| == 2;
    } else if u <= 0xFFFF {
      assert |s| == 3;
    } else {
      assert |s| == 4;
    }
  }

  lemma {:induction false} CharIsEncoding(s: Bytes)
    requires Utf8Char(s)
    ensures ScalarValue(Decode(s)) && Encode(Decode(s)) == s
  {
    if |s| == 2 {
      JoinSplits(s[0] - 0xC0, s[1]);
    } else if |s| == 3 {
      JoinSplits(s[0] - 0xE0, s[1]);
      JoinSplits(Join(s[0] - 0xE0, s[1]), s[2]);
    } else if |s| == 4 {
      JoinSplits(s[0] - 0xF0, s[1]);
      JoinSplits(Join(s[0] - 0xF0, s[1]), s[2]);
      JoinSplits(Join(Join(s[0] - 0xF0, s[1]), s[2]), s[3]);
    }
  }
}
