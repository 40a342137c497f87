/** Rewriting is done in one pass: with the URLs pindoc-retro-pass puts in, a second
    pass over the result finds nothing. */
module LinkSecondPass {
  import opened Wrappers
  import opened ArtifactLinks
  import opened LinkPositions

  /** The bare path /p/. */
  predicate StartsAtRoot(url: Text) {
    |url| >= 3 && url[0] == Rune('/') && url[1] == Rune('p') && url[2] == Rune('/')
  }

  /** What the resolver's URLs look like: no backtick, newline or inner prefix, and either
      http(s), with a slash before anything that ends a reference, or a path from /p/. */
  ghost predicate Shaped(url: Text) {
    && (forall i :: 0 <= i < |url| ==> url[i] != TICK && url[i] != NEWLINE)
    && (forall i :: 0 <= i < |url| ==> !(Prefix() <= url[i..]))
    && (StartsAtRoot(url) || (url != [] && url[0] == Rune('h') && HitsSlash(url)))
  }

  ghost predicate AllShaped(resolve: Resolver) {
    forall ref :: Shaped(UrlOf(resolve, ref))
  }

  predicate NoLinkHere(s: Text) {
    !(Prefix() <= s) || RefOf(s[9..]) == []
  }

  /** No link from here on, character by character. */
  predicate Quiet(s: Text, mode: Mode)
    decreases |s|
  {
    if s == [] then true
    else if s[0] == TICK then Quiet(s[Ticks(s)..], Flip(mode))
    else (mode == Code || NoLinkHere(s)) && Quiet(s[1..], mode)
  }

  lemma {:induction false} QuietSkips(s: Text, mode: Mode, k: nat)
    requires k <= |s| && Quiet(s, mode) && forall i :: 0 <= i < k ==> s[i] != TICK
    ensures Quiet(s[k..], mode)
  {
    if k > 0 {
      assert s[k..] == s[1..][k - 1..];
      QuietSkips(s[1..], mode, k - 1);
    } else {
      assert s[k..] == s;
    }
  }

  lemma {:induction false} QuietOver(u: Text, tail: Text, mode: Mode)
    requires Quiet(tail, mode) && forall i :: 0 <= i < |u| ==> u[i] != TICK && NoLinkHere((u + tail)[i..])
    ensures Quiet(u + tail, mode)
  {
    if u == [] {
      assert u + tail == tail;
    } else {
      var s := u + tail;
      assert s[1..] == u[1..] + tail && s[0..] == s;
      forall i | 0 <= i < |u[1..]| ensures NoLinkHere((u[1..] + tail)[i..]) {
        assert (u[1..] + tail)[i..] == s[i + 1..];
      }
      QuietOver(u[1..], tail, mode);
    }
  }

  /** A quiet text scans to no links. */
  lemma {:induction false} QuietHasNoRefs(s: Text, mode: Mode)
    requires Quiet(s, mode)
    ensures Refs(Scan(s, mode)) == []
    decreases |s|
  {
    if s == [] {
    } else if s[0] == TICK {
      QuietHasNoRefs(s[Ticks(s)..], Flip(mode));
    } else if mode == Prose && Prefix() <= s {
      PrefixLetters(s);
      QuietSkips(s, mode, 9);
      QuietHasNoRefs(s[9..], mode);
    } else {
      QuietHasNoRefs(s[1..], mode);
    }
  }

  // ----- the output of a scan ------------------------------------------------------------

  function Out(s: Text, mode: Mode, resolve: Resolver): Text {
    Written(Scan(s, mode), resolve)
  }

  lemma OutTicks(s: Text, mode: Mode, resolve: Resolver)
    requires s != [] && s[0] == TICK
    ensures Out(s, mode, resolve) == s[..Ticks(s)] + Out(s[Ticks(s)..], Flip(mode), resolve)
  {
  }

  lemma OutPlain(s: Text, mode: Mode, resolve: Resolver)
    requires s != [] && s[0] != TICK && (mode == Code || !(Prefix() <= s))
    ensures Out(s, mode, resolve) == [s[0]] + Out(s[1..], mode, resolve)
  {
    assert s[..1] == [s[0]];
  }

  lemma OutEmptyRef(s: Text, resolve: Resolver)
    requires Prefix() <= s && RefOf(s[9..]) == []
    ensures Out(s, Prose, resolve) == Prefix() + Out(s[9..], Prose, resolve)
  {
    PrefixLetter(s, 0);
  }

  /** At s a link is captured: trailing is the rest of its raw reference, and rest what follows. */
  ghost predicate LinkAt(s: Text, ref: Text, trailing: Text, rest: Text) {
    && Prefix() <= s && ref == RefOf(s[9..]) != []
    && trailing == RawRef(s[9..])[|ref|..] && rest == s[9 + |RawRef(s[9..])|..]
  }

  lemma OutLink(s: Text, resolve: Resolver) returns (url: Text, trailing: Text, rest: Text)
    requires Prefix() <= s && RefOf(s[9..]) != []
    ensures url == UrlOf(resolve, RefOf(s[9..])) && LinkAt(s, RefOf(s[9..]), trailing, rest) && |rest| < |s|
    ensures Out(s, Prose, resolve) == (url + trailing) + Out(rest, Prose, resolve)
  {
    var ref, raw := RefOf(s[9..]), RawRef(s[9..]);
    url, trailing, rest := UrlOf(resolve, ref), raw[|ref|..], s[9 + |raw|..];
    ScanLink(s, ref, raw);
  }

  lemma ScanLink(s: Text, ref: Text, raw: Text)
    requires Prefix() <= s && ref == RefOf(s[9..]) != [] && raw == RawRef(s[9..])
    ensures Scan(s, Prose) == Then(Link(ref, raw[|ref|..]), Scan(s[9 + |raw|..], Prose))
  {
    PrefixLetter(s, 0);
  }

  /** The trailing part is punctuation, and the reference ends there. */
  lemma LinkEnds(s: Text, ref: Text, trailing: Text, rest: Text)
    requires LinkAt(s, ref, trailing, rest)
    ensures PunctOnly(trailing) && (rest == [] || Ends(rest[0]))
  {
    var raw := RawRef(s[9..]);
    TrimPunctMeans(raw);
    RawRefEnds(s[9..]);
    assert rest != [] ==> rest[0] == s[9..][|raw|];
  }

  lemma ShapedHead(url: Text, t: Text)
    requires Shaped(url)
    ensures url + t != [] && ((url + t)[0] == Rune('h') || (url + t)[0] == Rune('/'))
  {
    assert (url + t)[0] == url[0];
  }

  lemma PrefixHead(s: Text, resolve: Resolver)
    requires AllShaped(resolve) && Prefix() <= s
    ensures var o := Out(s, Prose, resolve); o != [] && (o[0] == Rune('p') || o[0] == Rune('h') || o[0] == Rune('/'))
  {
    if RefOf(s[9..]) == [] {
      OutEmptyRef(s, resolve);
      assert Prefix()[0] == Rune('p');
    } else {
      var url, trailing, rest := OutLink(s, resolve);
      Regroup(url, trailing, Out(rest, Prose, resolve));
      ShapedHead(url, trailing + Out(rest, Prose, resolve));
    }
  }

  /** Output starts where input does: with a backtick or not, and with the same end of a reference. */
  lemma OutHead(s: Text, mode: Mode, resolve: Resolver)
    requires AllShaped(resolve) && s != []
    ensures Out(s, mode, resolve) != [] && (Out(s, mode, resolve)[0] == TICK <==> s[0] == TICK)
    ensures Ends(s[0]) || s[0] == Rune('/') || IsPunct(s[0]) ==> Out(s, mode, resolve)[0] == s[0]
  {
    if s[0] == TICK {
      OutTicks(s, mode, resolve);
    } else if mode == Prose && Prefix() <= s {
      assert s[0] == Prefix()[0] == Rune('p');
      PrefixHead(s, resolve);
    } else {
      OutPlain(s, mode, resolve);
    }
  }

  // ----- no link where there was none ------------------------------------------------------

  lemma {:induction false} SlashPrefixed(u: Text, t: Text)
    requires HitsSlash(u)
    ensures HitsSlash(u + t)
  {
    if u[0] != Rune('/') {
      assert (u + t)[1..] == u[1..] + t;
      SlashPrefixed(u[1..], t);
    }
  }

  lemma ShapedSlash(url: Text, t: Text)
    requires Shaped(url)
    ensures HitsSlash(url + t)
  {
    if StartsAtRoot(url) {
      assert (url + t)[0] == Rune('/');
    } else {
      SlashPrefixed(url, t);
    }
  }

  lemma SlashAtPrefix(t: Text, resolve: Resolver)
    requires AllShaped(resolve) && Prefix() <= t
    ensures HitsSlash(Out(t, Prose, resolve))
  {
    if RefOf(t[9..]) == [] {
      OutEmptyRef(t, resolve);
      PrefixSlash(Out(t, Prose, resolve));
    } else {
      var url, trailing, rest := OutLink(t, resolve);
      ShapedSlash(url, trailing);
      SlashPrefixed(url + trailing, Out(rest, Prose, resolve));
    }
  }

  /** A slash that empties a reference still does, whatever is replaced after the prefix. */
  lemma {:induction false} SlashStays(t: Text, resolve: Resolver)
    requires AllShaped(resolve) && HitsSlash(t)
    ensures HitsSlash(Out(t, Prose, resolve))
    decreases |t|
  {
    if Prefix() <= t {
      SlashAtPrefix(t, resolve);
    } else {
      OutPlain(t, Prose, resolve);
      if t[0] != Rune('/') {
        SlashStays(t[1..], resolve);
        assert Out(t, Prose, resolve)[1..] == Out(t[1..], Prose, resolve);
      }
    }
  }

  /** A raw reference of punctuation only stays one. */
  lemma {:induction false} PunctStays(t: Text, resolve: Resolver)
    requires AllShaped(resolve) && PunctOnly(RawRef(t)) && !HitsSlash(t)
    ensures var o := Out(t, Prose, resolve); PunctOnly(RawRef(o)) && !HitsSlash(o)
    decreases |t|
  {
    if t != [] {
      OutHead(t, Prose, resolve);
      if !Ends(t[0]) {
        assert RawRef(t)[0] == t[0];
        OtherStart(t);
        OutPlain(t, Prose, resolve);
        assert RawRef(t)[1..] == RawRef(t[1..]);
        PunctStays(t[1..], resolve);
        assert Out(t, Prose, resolve)[1..] == Out(t[1..], Prose, resolve);
      }
    }
  }

  lemma RefStaysEmpty(t: Text, resolve: Resolver)
    requires AllShaped(resolve) && RefOf(t) == []
    ensures RefOf(Out(t, Prose, resolve)) == []
  {
    if HitsSlash(t) {
      SlashStays(t, resolve);
    } else {
      TrimPunctMeans(RawRef(t));
      PunctStays(t, resolve);
      TrimPunctMeans(RawRef(Out(t, Prose, resolve)));
    }
  }

  // ----- no prefix that is half URL ---------------------------------------------------------

  /** w is the prefix from its k-th character on. */
  function Tail(k: nat): Text
    requires k <= 9
  {
    Prefix()[k..]
  }

  /** The rest of a prefix stands at the start of the output. */
  predicate Begun(s: Text, k: nat, resolve: Resolver)
    requires k <= 9
  {
    Tail(k) <= Out(s, Prose, resolve)
  }

  /** It stands in the input too, or it ends in a path from /p/, which empties the reference. */
  predicate Harmless(s: Text, k: nat, resolve: Resolver)
    requires k <= 9 && Begun(s, k, resolve)
  {
    Tail(k) <= s || RefOf(Out(s, Prose, resolve)[9 - k..]) == []
  }

  lemma {:induction false} Straddle(s: Text, k: nat, resolve: Resolver)
    requires AllShaped(resolve) && 0 < k <= 9 && Begun(s, k, resolve)
    ensures Harmless(s, k, resolve)
    decreases 9 - k
  {
    if k == 9 {
      assert Tail(k) == [];
    } else {
      StraddleStart(s, k, resolve);
      if Prefix() <= s {
        StraddleUrl(s, k, resolve);
      } else {
        StraddlePlain(s, k, resolve);
        Straddle(s[1..], k + 1, resolve);
      }
    }
  }

  lemma StraddleStart(s: Text, k: nat, resolve: Resolver)
    requires AllShaped(resolve) && 0 < k < 9 && Begun(s, k, resolve)
    ensures s != [] && s[0] != TICK
  {
    TailLetter(k);
    assert Out(s, Prose, resolve)[0] == Tail(k)[0];
    if s != [] {
      OutHead(s, Prose, resolve);
    }
  }

  lemma StraddlePlain(s: Text, k: nat, resolve: Resolver)
    requires 0 < k < 9 && s != [] && s[0] != TICK && !(Prefix() <= s) && Begun(s, k, resolve)
    ensures Begun(s[1..], k + 1, resolve)
    ensures Harmless(s[1..], k + 1, resolve) ==> Harmless(s, k, resolve)
  {
    OutPlain(s, Prose, resolve);
    OneOff(s, Out(s, Prose, resolve), Out(s[1..], Prose, resolve), k);
  }

  lemma OneOff(s: Text, out: Text, o: Text, k: nat)
    requires 0 < k < 9 && s != [] && out == [s[0]] + o && Tail(k) <= out
    ensures Tail(k + 1) <= o && out[9 - k..] == o[9 - (k + 1)..] && (Tail(k + 1) <= s[1..] ==> Tail(k) <= s)
  {
    assert Tail(k) == [Prefix()[k]] + Tail(k + 1);
    assert out[1..] == o && out[0] == Tail(k)[0];
    assert Tail(k + 1) == out[..9 - k][1..];
    assert s == [s[0]] + s[1..];
  }

  lemma TailLetter(k: nat)
    requires 0 < k < 9
    ensures Tail(k)[0] == Prefix()[k] != TICK && Prefix()[k] != Rune('p') && Prefix()[k] != Rune('h')
    ensures Prefix()[k] == Rune('/') ==> k == 7 || k == 8
    ensures k == 7 ==> Tail(k)[1] == Rune('/')
  {
  }

  lemma StraddleUrl(s: Text, k: nat, resolve: Resolver)
    requires AllShaped(resolve) && 0 < k < 9 && Prefix() <= s && Begun(s, k, resolve)
    ensures Harmless(s, k, resolve)
  {
    TailLetter(k);
    EmptyRefHead(s, resolve);
    assert Out(s, Prose, resolve)[0] == Tail(k)[0];
    var url, trailing, rest := OutLink(s, resolve);
    FrontOf(url, trailing, Out(rest, Prose, resolve));
    RootInPrefix(Out(s, Prose, resolve), url, k);
  }

  lemma FrontOf(a: Text, b: Text, c: Text)
    ensures a <= (a + b) + c
  {
  }

  /** The end of a prefix that begins in a URL lies in its path from /p/. */
  lemma RootInPrefix(o: Text, url: Text, k: nat)
    requires 0 < k < 9 && Shaped(url) && url <= o && Tail(k) <= o
    ensures RefOf(o[9 - k..]) == []
  {
    TailLetter(k);
    assert o[0] == Tail(k)[0] && o[0] == url[0];
    assert StartsAtRoot(url) && o[1] == url[1] && o[2] == url[2];
    SlashAhead(o[1..], 1);
  }

  lemma EmptyRefHead(s: Text, resolve: Resolver)
    requires Prefix() <= s
    ensures RefOf(s[9..]) == [] ==> Out(s, Prose, resolve) != [] && Out(s, Prose, resolve)[0] == Rune('p')
  {
    if RefOf(s[9..]) == [] {
      OutEmptyRef(s, resolve);
      assert Prefix()[0] == Rune('p');
    }
  }

  // ----- no prefix from a URL on ------------------------------------------------------------

  lemma PrefixNotPunct(j: nat)
    requires j < 9
    ensures IsPunct(Prefix()[j]) <==> j == 6
    ensures !Ends(Prefix()[j]) && Prefix()[7] == Rune('/')
  {
    PrefixLetter(Prefix(), j);
  }

  lemma Differs(t: Text, j: nat)
    requires j < 9 && (|t| < 9 || t[j] != Prefix()[j])
    ensures !(Prefix() <= t)
  {
  }

  lemma SameNine(t: Text, u: Text)
    requires |t| >= 9 && |u| >= 9 && t[..9] == u[..9]
    ensures Prefix() <= t <==> Prefix() <= u
  {
    assert Prefix() <= t <==> Prefix() == t[..9];
    assert Prefix() <= u <==> Prefix() == u[..9];
  }

  /** After a URL come punctuation and then what ends a reference: neither continues a prefix. */
  lemma NoPrefixOver(url: Text, trailing: Text, tail: Text, k: nat)
    requires Shaped(url) && PunctOnly(trailing) && (tail == [] || Ends(tail[0])) && k < |url + trailing|
    ensures !(Prefix() <= ((url + trailing) + tail)[k..])
  {
    var t, m := ((url + trailing) + tail)[k..], |url| - k;
    if k >= |url| {
      assert t[0] == trailing[k - |url|];
      OtherStart(t);
    } else if m >= 9 {
      assert t[..9] == url[k..][..9];
      SameNine(t, url[k..]);
    } else if |t| < 9 {
      Differs(t, 0);
    } else {
      assert t[m..] == trailing + tail;
      PrefixNotPunct(m);
      if trailing != [] && m == 6 {
        assert t[7] == (trailing + tail)[1];
        Differs(t, 7);
      } else {
        assert t[m] == (trailing + tail)[0];
        Differs(t, m);
      }
    }
  }

  lemma LinkIsQuiet(url: Text, trailing: Text, tail: Text)
    requires Shaped(url) && PunctOnly(trailing) && (tail == [] || Ends(tail[0])) && Quiet(tail, Prose)
    ensures Quiet((url + trailing) + tail, Prose)
  {
    var u := url + trailing;
    forall i | 0 <= i < |u| ensures u[i] != TICK && NoLinkHere((u + tail)[i..]) {
      NoPrefixOver(url, trailing, tail, i);
      assert i >= |url| ==> u[i] == trailing[i - |url|];
    }
    QuietOver(u, tail, Prose);
  }

  lemma EmptyRefIsQuiet(o: Text)
    requires RefOf(o) == [] && Quiet(o, Prose)
    ensures Quiet(Prefix() + o, Prose)
  {
    var t := Prefix() + o;
    PrefixLetters(t);
    assert t[9..] == o;
    forall i | 0 <= i < 9 ensures Prefix()[i] != TICK && NoLinkHere(t[i..]) {
      assert t[0..] == t;
      PrefixLetter(t, i);
    }
    QuietOver(Prefix(), o, Prose);
  }

  lemma PlainIsQuiet(s: Text, mode: Mode, resolve: Resolver)
    requires AllShaped(resolve) && s != [] && s[0] != TICK && (mode == Code || !(Prefix() <= s))
    requires Quiet(Out(s[1..], mode, resolve), mode)
    ensures Quiet(Out(s, mode, resolve), mode)
  {
    OutPlain(s, mode, resolve);
    var o, o' := Out(s, mode, resolve), Out(s[1..], mode, resolve);
    assert o[1..] == o';
    if mode == Prose && Prefix() <= o {
      assert Tail(1) == o[..9][1..] == o'[..8];
      Straddle(s[1..], 1, resolve);
      assert o[9..] == o'[8..];
      assert Tail(1) <= s[1..] ==> Prefix() <= s by {
        assert s == [s[0]] + s[1..] && Prefix() == [o[0]] + Tail(1);
      }
    }
  }

  lemma TicksAreQuiet(s: Text, mode: Mode, resolve: Resolver)
    requires AllShaped(resolve) && s != [] && s[0] == TICK && Quiet(Out(s[Ticks(s)..], Flip(mode), resolve), Flip(mode))
    ensures Quiet(Out(s, mode, resolve), mode)
  {
    OutTicks(s, mode, resolve);
    TicksMean(s);
    var n, o, rest := Ticks(s), Out(s, mode, resolve), s[Ticks(s)..];
    if rest != [] {
      OutHead(rest, Flip(mode), resolve);
    }
    assert o[n..] == Out(rest, Flip(mode), resolve);
    TicksAre(o, n);
  }

  lemma {:induction false} TicksAre(o: Text, n: nat)
    requires n <= |o| && (forall i :: 0 <= i < n ==> o[i] == TICK) && (n < |o| ==> o[n] != TICK)
    ensures Ticks(o) == n
  {
    TicksMean(o);
  }

  /** What rewriting a line gives has no link left. */
  lemma {:induction false} OutIsQuiet(s: Text, mode: Mode, resolve: Resolver)
    requires AllShaped(resolve)
    ensures Quiet(Out(s, mode, resolve), mode)
    decreases |s|
  {
    if s == [] {
    } else if s[0] == TICK {
      OutIsQuiet(s[Ticks(s)..], Flip(mode), resolve);
      TicksAreQuiet(s, mode, resolve);
    } else if mode == Prose && Prefix() <= s {
      var ref, raw := RefOf(s[9..]), RawRef(s[9..]);
      if ref == [] {
        OutIsQuiet(s[9..], mode, resolve);
        OutEmptyRef(s, resolve);
        RefStaysEmpty(s[9..], resolve);
        EmptyRefIsQuiet(Out(s[9..], Prose, resolve));
      } else {
        OutIsQuiet(s[9 + |raw|..], mode, resolve);
        LinkCase(s, resolve);
      }
    } else {
      OutIsQuiet(s[1..], mode, resolve);
      PlainIsQuiet(s, mode, resolve);
    }
  }

  lemma LinkCase(s: Text, resolve: Resolver)
    requires AllShaped(resolve) && Prefix() <= s && RefOf(s[9..]) != []
    requires Quiet(Out(s[9 + |RawRef(s[9..])|..], Prose, resolve), Prose)
    ensures Quiet(Out(s, Prose, resolve), Prose)
  {
    var url, trailing, rest := OutLink(s, resolve);
    LinkEnds(s, RefOf(s[9..]), trailing, rest);
    if rest != [] {
      OutHead(rest, Prose, resolve);
    }
    assert Shaped(url);
    LinkIsQuiet(url, trailing, Out(rest, Prose, resolve));
  }

  // ----- all lines --------------------------------------------------------------------------

  /** What a line becomes. */
  function OutLine(line: Text, mode: Mode, resolve: Resolver): Text {
    if mode == Code || Fence(line) then line else Out(line, Prose, resolve)
  }

  function OutLines(lines: seq<Text>, mode: Mode, resolve: Resolver): (r: seq<Text>)
    ensures |r| == |lines|
  {
    if lines == [] then []
    else [OutLine(lines[0], mode, resolve)] + OutLines(lines[1..], AfterLine(lines[0], mode), resolve)
  }

  lemma {:induction false} OutLinesWrite(lines: seq<Text>, mode: Mode, resolve: Resolver)
    ensures Concat(OutLines(lines, mode, resolve)) == Written(ScanLines(lines, mode), resolve)
  {
    if lines != [] {
      var after := AfterLine(lines[0], mode);
      OutLinesWrite(lines[1..], after, resolve);
      WrittenJoined(ScanLine(lines[0], mode), ScanLines(lines[1..], after), resolve);
      VerbatimLine(lines[0], resolve);
      assert OutLines(lines, mode, resolve)[1..] == OutLines(lines[1..], after, resolve);
    }
  }

  /** A newline, if any, is the last character. */
  ghost predicate OneLineOf(s: Text) {
    forall i :: 0 <= i < |s| - 1 ==> s[i] != NEWLINE
  }

  ghost predicate Terminated(s: Text) {
    s != [] && s[|s| - 1] == NEWLINE
  }

  /** Replacing links neither adds nor removes a newline. */
  ghost predicate SameShape(o: Text, s: Text) {
    OneLineOf(o) && (Terminated(o) <==> Terminated(s)) && (o == [] <==> s == [])
  }

  predicate NoNewline(s: Text) {
    forall i :: 0 <= i < |s| ==> s[i] != NEWLINE
  }

  lemma ShapeOver(u: Text, o: Text, w: Text, t: Text)
    requires u != [] && w != [] && NoNewline(u) && NoNewline(w) && SameShape(o, t)
    ensures SameShape(u + o, w + t)
  {
    var s := u + o;
    forall i | 0 <= i < |s| - 1 ensures s[i] != NEWLINE {
      assert s[i] == if i < |u| then u[i] else o[i - |u|];
    }
  }

  lemma LinkLetters(s: Text, ref: Text, trailing: Text, rest: Text)
    requires LinkAt(s, ref, trailing, rest)
    ensures var k := |s| - |rest|; 9 <= k && NoNewline(s[..k]) && s == s[..k] + rest && NoNewline(trailing)
  {
    var raw := RawRef(s[9..]);
    var k := 9 + |raw|;
    RawRefEnds(s[9..]);
    forall i | 0 <= i < k ensures s[i] != NEWLINE {
      if i < 9 {
        PrefixLetter(s, i);
      } else {
        assert s[i] == s[9..][i - 9];
      }
    }
  }

  lemma LinkShape(s: Text, resolve: Resolver)
    requires AllShaped(resolve) && OneLineOf(s) && Prefix() <= s && RefOf(s[9..]) != []
    requires SameShape(Out(s[9 + |RawRef(s[9..])|..], Prose, resolve), s[9 + |RawRef(s[9..])|..])
    ensures SameShape(Out(s, Prose, resolve), s)
  {
    var url, trailing, rest := OutLink(s, resolve);
    LinkLetters(s, RefOf(s[9..]), trailing, rest);
    assert Shaped(url);
    ShapeOver(url + trailing, Out(rest, Prose, resolve), s[..|s| - |rest|], rest);
  }

  lemma ShapeOverSame(s: Text, n: nat, o: Text)
    requires 0 < n <= |s| && NoNewline(s[..n]) && SameShape(o, s[n..])
    ensures SameShape(s[..n] + o, s)
  {
    ShapeOver(s[..n], o, s[..n], s[n..]);
    Rejoin(s, n);
  }

  lemma {:induction false} OutShape(s: Text, mode: Mode, resolve: Resolver)
    requires AllShaped(resolve) && OneLineOf(s)
    ensures SameShape(Out(s, mode, resolve), s)
    decreases |s|
  {
    if s == [] {
    } else if s[0] == TICK {
      var n := Ticks(s);
      OutShape(s[n..], Flip(mode), resolve);
      OutTicks(s, mode, resolve);
      TicksMean(s);
      ShapeOverSame(s, n, Out(s[n..], Flip(mode), resolve));
    } else if mode == Prose && Prefix() <= s {
      if RefOf(s[9..]) == [] {
        OutShape(s[9..], mode, resolve);
        EmptyRefShape(s, resolve);
      } else {
        OutShape(s[9 + |RawRef(s[9..])|..], mode, resolve);
        LinkShape(s, resolve);
      }
    } else {
      OutShape(s[1..], mode, resolve);
      OutPlain(s, mode, resolve);
      if s[0] != NEWLINE {
        assert [s[0]] == s[..1];
        ShapeOverSame(s, 1, Out(s[1..], mode, resolve));
      }
    }
  }

  lemma EmptyRefShape(s: Text, resolve: Resolver)
    requires Prefix() <= s && RefOf(s[9..]) == [] && SameShape(Out(s[9..], Prose, resolve), s[9..])
    ensures SameShape(Out(s, Prose, resolve), s)
  {
    OutEmptyRef(s, resolve);
    PrefixLetters(s);
    ShapeOverSame(s, 9, Out(s[9..], Prose, resolve));
  }

  lemma TildeHead(t: Text, resolve: Resolver)
    requires AllShaped(resolve)
    ensures var o := Out(t, Prose, resolve);
            o != [] && o[0] == Rune('~') ==> t != [] && t[0] == Rune('~') && o[1..] == Out(t[1..], Prose, resolve)
  {
    if t != [] {
      OutHead(t, Prose, resolve);
      if t[0] != TICK {
        if Prefix() <= t {
          PrefixHead(t, resolve);
        } else {
          OutPlain(t, Prose, resolve);
        }
      }
    }
  }

  /** A line that is no fence does not become one. */
  lemma {:induction false} FenceStays(s: Text, resolve: Resolver)
    requires AllShaped(resolve) && !Fence(s)
    ensures !Fence(Out(s, Prose, resolve))
  {
    if s == [] {
    } else if s[0] == Rune(' ') || s[0] == Rune('\t') {
      OtherStart(s);
      OutPlain(s, Prose, resolve);
      assert Out(s, Prose, resolve)[1..] == Out(s[1..], Prose, resolve);
      FenceStays(s[1..], resolve);
    } else if s[0] == TICK {
      var n := Ticks(s);
      OutTicks(s, Prose, resolve);
      TicksMean(s);
      if s[n..] != [] {
        OutHead(s[n..], Code, resolve);
      }
      assert n < 3;
    } else if Prefix() <= s {
      PrefixHead(s, resolve);
    } else {
      OutPlain(s, Prose, resolve);
      TildeHead(s[1..], resolve);
      if |s| > 1 {
        TildeHead(s[2..], resolve);
        assert s[1..][1..] == s[2..];
      }
      assert Out(s, Prose, resolve)[1..] == Out(s[1..], Prose, resolve);
    }
  }

  /** Lines as SplitAfter gives them. */
  ghost predicate WellSplit(lines: seq<Text>) {
    && lines != [] && !HasNewline(lines[|lines| - 1])
    && forall k :: 0 <= k < |lines| - 1 ==> OneLineOf(lines[k]) && Terminated(lines[k])
  }

  lemma {:induction false} SplitIsWell(s: Text)
    ensures WellSplit(SplitAfter(s))
    decreases |s|
  {
    if HasNewline(s) {
      var n := LineLen(s);
      SplitIsWell(s[n..]);
      FirstNewline(s);
    }
  }

  lemma {:induction false} FirstNewline(s: Text)
    requires HasNewline(s)
    ensures var n := LineLen(s); n > 0 && OneLineOf(s[..n]) && Terminated(s[..n])
  {
    if s[0] != NEWLINE {
      assert s == [s[0]] + s[1..];
      FirstNewline(s[1..]);
    }
  }

  lemma {:induction false} LineThenRest(line: Text, rest: Text)
    requires OneLineOf(line) && Terminated(line)
    ensures HasNewline(line + rest) && LineLen(line + rest) == |line|
  {
    var s := line + rest;
    assert s[|line| - 1] == NEWLINE;
    if |line| > 1 {
      assert s[1..] == line[1..] + rest && s[0] == line[0];
      LineThenRest(line[1..], rest);
    }
  }

  /** Joining lines and splitting again gives the lines. */
  lemma {:induction false} SplitAgain(lines: seq<Text>)
    requires WellSplit(lines)
    ensures SplitAfter(Concat(lines)) == lines
  {
    var rest := Concat(lines[1..]);
    if |lines| == 1 {
      assert Concat(lines) == lines[0];
    } else {
      LineThenRest(lines[0], rest);
      assert (lines[0] + rest)[|lines[0]|..] == rest && (lines[0] + rest)[..|lines[0]|] == lines[0];
      SplitAgain(lines[1..]);
    }
  }

  lemma LineKeeps(line: Text, mode: Mode, resolve: Resolver)
    requires AllShaped(resolve)
    ensures var o := OutLine(line, mode, resolve);
            && Fence(o) == Fence(line) && Refs(ScanLine(o, mode)) == []
            && (OneLineOf(line) ==> SameShape(o, line))
  {
    var o := OutLine(line, mode, resolve);
    if mode == Code || Fence(line) {
      VerbatimLine(o, resolve);
    } else {
      FenceStays(line, resolve);
      OutIsQuiet(line, Prose, resolve);
      QuietHasNoRefs(o, Prose);
      if OneLineOf(line) {
        OutShape(line, Prose, resolve);
      }
    }
  }

  lemma {:induction false} OutLinesKeep(lines: seq<Text>, mode: Mode, resolve: Resolver)
    requires AllShaped(resolve)
    ensures Refs(ScanLines(OutLines(lines, mode, resolve), mode)) == []
  {
    if lines != [] {
      var o, after := OutLine(lines[0], mode, resolve), AfterLine(lines[0], mode);
      var rest := OutLines(lines[1..], after, resolve);
      LineKeeps(lines[0], mode, resolve);
      OutLinesKeep(lines[1..], after, resolve);
      assert OutLines(lines, mode, resolve)[1..] == rest;
      RefsJoined(ScanLine(o, mode), ScanLines(rest, after));
    }
  }

  lemma {:induction false} OutLinesShape(lines: seq<Text>, mode: Mode, resolve: Resolver, k: nat)
    requires AllShaped(resolve) && k < |lines| && OneLineOf(lines[k])
    ensures SameShape(OutLines(lines, mode, resolve)[k], lines[k])
  {
    if k == 0 {
      LineKeeps(lines[0], mode, resolve);
    } else {
      OutLinesShape(lines[1..], AfterLine(lines[0], mode), resolve, k - 1);
    }
  }

  lemma OutLinesWell(lines: seq<Text>, mode: Mode, resolve: Resolver)
    requires AllShaped(resolve) && WellSplit(lines)
    ensures WellSplit(OutLines(lines, mode, resolve))
  {
    var outs, last := OutLines(lines, mode, resolve), |lines| - 1;
    forall k | 0 <= k < last ensures OneLineOf(outs[k]) && Terminated(outs[k]) {
      OutLinesShape(lines, mode, resolve, k);
    }
    NewlineLast(lines[last]);
    OutLinesShape(lines, mode, resolve, last);
    NewlineLast(outs[last]);
  }

  lemma NewlineLast(s: Text)
    ensures HasNewline(s) <==> exists i :: 0 <= i < |s| && s[i] == NEWLINE
    ensures !HasNewline(s) ==> OneLineOf(s) && !Terminated(s)
    ensures OneLineOf(s) && !Terminated(s) ==> !HasNewline(s)
  {
  }

  lemma ShapedPassTwice(body: Text, resolve: Resolver)
    requires AllShaped(resolve)
    ensures Refs(PiecesOf(Written(PiecesOf(body), resolve))) == []
  {
    var lines := SplitAfter(body);
    var outs := OutLines(lines, Prose, resolve);
    SplitIsWell(body);
    OutLinesWell(lines, Prose, resolve);
    SplitAgain(outs);
    OutLinesWrite(lines, Prose, resolve);
    OutLinesKeep(lines, Prose, resolve);
  }

  lemma {:induction false} SameOnRefs(pieces: Pieces, r: Resolver, r': Resolver)
    requires forall ref :: ref in Refs(pieces) ==> UrlOf(r, ref) == UrlOf(r', ref)
    ensures Written(pieces, r) == Written(pieces, r')
  {
    if pieces.Then? {
      assert forall ref :: ref in Refs(pieces.rest) ==> ref in Refs(pieces);
      assert pieces.head.Link? ==> Refs(pieces)[0] == pieces.head.ref;
      SameOnRefs(pieces.rest, r, r');
    }
  }

  function Root(): Text {
    [Rune('/'), Rune('p'), Rune('/')]
  }

  lemma RootIsShaped()
    ensures Shaped(Root())
  {
  }

  /** Once the links of a body are replaced by URLs of that shape, a second pass with any
      resolver finds nothing to rewrite. */
  lemma SecondPassFindsNothing(body: Text, resolve: Resolver, again: Resolver)
    requires Rewritten(body, resolve).error.None?
    requires forall ref :: resolve(ref).Some? ==> Shaped(resolve(ref).value)
    ensures var r := Rewritten(body, resolve); Rewritten(r.body, again) == Rewrite(r.body, [], None)
  {
    var total: Resolver := ref => if resolve(ref).Some? then resolve(ref) else Some(Root());
    var pieces := PiecesOf(body);
    RootIsShaped();
    assert AllShaped(total);
    FirstBadMeans(Refs(pieces), resolve);
    forall ref | ref in Refs(pieces) ensures UrlOf(resolve, ref) == UrlOf(total, ref) {
      assert resolve(ref).Some?;
    }
    SameOnRefs(pieces, resolve, total);
    ShapedPassTwice(body, total);
    EarlyExits(Written(pieces, resolve), again);
  }

  // ----- pindoc-retro-pass' URLs --------------------------------------------------------------

  function TrimSlashes(t: Text): (r: Text)
    ensures r <= t && (r != [] ==> r[|r| - 1] != Rune('/'))
    ensures forall i :: |r| <= i < |t| ==> t[i] == Rune('/')
  {
    if t != [] && t[|t| - 1] == Rune('/') then TrimSlashes(t[..|t| - 1]) else t
  }

  function Wiki(): Text {
    [Rune('/'), Rune('w'), Rune('i'), Rune('k'), Rune('i'), Rune('/')]
  }

  /** The URL for a target slug, given the trimmed public base URL setting. */
  function RetroUrl(base: Text, project: Text, target: Text): Text {
    TrimSlashes(base) + (Root() + (project + (Wiki() + target)))
  }

  predicate HttpBase(base: Text) {
    && |base| >= 7 && base[0] == Rune('h') && base[1] == Rune('t') && base[2] == Rune('t') && base[3] == Rune('p')
    && ((base[4] == Rune(':') && base[5] == Rune('/'))
        || (base[4] == Rune('s') && base[5] == Rune(':') && base[6] == Rune('/')))
  }

  /** No backtick and no newline. */
  predicate Clean(t: Text) {
    forall i :: 0 <= i < |t| ==> t[i] != TICK && t[i] != NEWLINE
  }

  predicate Colonless(t: Text) {
    forall i :: 0 <= i < |t| ==> t[i] != Rune(':')
  }

  lemma RetroUrlIsShaped(base: Text, project: Text, target: Text)
    requires base == [] || HttpBase(base)
    requires Clean(base) && !Contains(base) && Clean(project) && Colonless(project) && Clean(target)
             && Colonless(target)
    ensures Shaped(RetroUrl(base, project, target))
  {
    var trimmed, path := TrimSlashes(base), Root() + (project + (Wiki() + target));
    var url := trimmed + path;
    assert Clean(project + (Wiki() + target)) && Colonless(project + (Wiki() + target));
    assert Clean(path) && Colonless(path) && path[0] == Rune('/') && path[1] == Rune('p') && path[2] == Rune('/');
    forall i | 0 <= i < |url| ensures !(Prefix() <= url[i..]) {
      NoPrefixInUrl(base, trimmed, path, i);
    }
    if trimmed != [] {
      var colon := if base[4] == Rune(':') then 4 else 5;
      assert |trimmed| > colon;
      assert url[colon + 1] == Rune('/');
      SlashAhead(url, colon + 1);
    }
  }

  lemma NoPrefixInUrl(base: Text, trimmed: Text, path: Text, i: nat)
    requires trimmed <= base && !Contains(base) && (trimmed != [] ==> trimmed[|trimmed| - 1] != Rune('/'))
    requires Colonless(path) && |path| >= 3 && path[1] == Rune('p') && i < |trimmed + path|
    ensures !(Prefix() <= (trimmed + path)[i..])
  {
    var url := trimmed + path;
    var t, m := url[i..], |trimmed|;
    PrefixSymbols();
    if |t| < 9 {
      Differs(t, 0);
    } else if i + 6 >= m {
      assert t[6] == path[i + 6 - m];
      Differs(t, 6);
    } else if i + 7 == m {
      assert t[8] == path[1];
      Differs(t, 8);
    } else if i + 8 == m {
      assert t[7] == trimmed[m - 1];
      Differs(t, 7);
    } else {
      NotContained(base, i);
      assert t[..9] == base[i..][..9];
      SameNine(t, base[i..]);
    }
  }

  lemma PrefixSymbols()
    ensures Prefix()[6] == Rune(':') && Prefix()[7] == Rune('/') && Prefix()[8] == Rune('/')
  {
  }

  lemma {:induction false} NotContained(s: Text, i: nat)
    requires !Contains(s) && i <= |s|
    ensures !(Prefix() <= s[i..])
  {
    if i < |s| && i > 0 {
      assert s[i..] == s[1..][i - 1..];
      NotContained(s[1..], i - 1);
    } else if i == 0 {
      assert s[0..] == s;
    }
  }
}
