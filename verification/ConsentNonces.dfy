/** internal/pindoc/auth/consent.go: one-time consent nonces, and the canonical scope
    lists of storage_pgx.go they are compared by. Times are nanoseconds. */
module ConsentNonces {
  import opened Wrappers
  import opened Hashing
  import opened Strings
  import opened Sorting

  const TTL := 5 * 60 * 1_000_000_000
  const NUL := '\0'

  // ----- normalizeOAuthScopes -----------------------------------------------------------

  /** The trimmed scopes in order of first appearance. */
  function FirstSeen(scopes: seq<string>): seq<string> {
    if scopes == [] then []
    else
      var n := |scopes| - 1;
      var front, scope := FirstSeen(scopes[..n]), TrimSpace(scopes[n]);
      if scope == "" || scope in front then front else front + [scope]
  }

  function Canonical(scopes: seq<string>): seq<string> {
    Sort(Leq, FirstSeen(scopes))
  }

  /** What a scope list asks for. */
  function ScopeSet(scopes: seq<string>): set<string> {
    set i | 0 <= i < |scopes| && TrimSpace(scopes[i]) != "" :: TrimSpace(scopes[i])
  }

  method NormalizeOAuthScopes(scopes: seq<string>) returns (out: seq<string>)
    ensures out == Canonical(scopes)
  {
    if |scopes| == 0 {
      return [];
    }
    var seen: set<string> := {};
    out := [];
    for i := 0 to |scopes|
      invariant out == FirstSeen(scopes[..i]) && forall s :: s in seen <==> s in out
    {
      assert scopes[..i + 1][..i] == scopes[..i];
      var scope := TrimSpace(scopes[i]);
      if scope == "" || scope in seen {
        continue;
      }
      seen := seen + {scope};
      out := out + [scope];
    }
    assert scopes[..|scopes|] == scopes;
    out := Sort(Leq, out);
  }

  lemma {:induction false} FirstSeenMembers(scopes: seq<string>)
    ensures NoDup(FirstSeen(scopes))
    ensures forall s :: s in FirstSeen(scopes) <==> s in ScopeSet(scopes)
  {
    if scopes != [] {
      var n := |scopes| - 1;
      FirstSeenMembers(scopes[..n]);
      var last := if TrimSpace(scopes[n]) == "" then {} else {TrimSpace(scopes[n])};
      assert ScopeSet(scopes) == ScopeSet(scopes[..n]) + last by {
        assert forall i :: 0 <= i < n ==> scopes[..n][i] == scopes[i];
      }
    }
  }

  /** The canonical list is the scope set: sorted, without duplicates or blanks, the same
      for two lists exactly when they ask for the same scopes. */
  lemma CanonicalIsTheSet(a: seq<string>, b: seq<string>)
    ensures Canonical(a) == Canonical(b) <==> ScopeSet(a) == ScopeSet(b)
    ensures Sorted(Leq, Canonical(a)) && NoDup(Canonical(a))
    ensures forall s :: s in Canonical(a) <==> s in ScopeSet(a)
  {
    LeqIsOrder();
    FirstSeenMembers(a);
    FirstSeenMembers(b);
    SortMembers(Leq, FirstSeen(a));
    SortMembers(Leq, FirstSeen(b));
    SortSorts(Leq, FirstSeen(a));
    SortNoDup(Leq, FirstSeen(a));
    if ScopeSet(a) == ScopeSet(b) {
      SameMembers(FirstSeen(a), FirstSeen(b));
      LeqUntied(FirstSeen(a));
      SortForgetsOrder(Leq, FirstSeen(a), FirstSeen(b));
    }
    if Canonical(a) == Canonical(b) {
      forall s ensures s in ScopeSet(a) <==> s in ScopeSet(b) {
        assert s in Canonical(a) <==> s in FirstSeen(a);
        assert s in Canonical(b) <==> s in FirstSeen(b);
      }
    }
  }

  // ----- the joined form ----------------------------------------------------------------

  function Join(parts: seq<string>): string {
    if parts == [] then ""
    else if |parts| == 1 then parts[0]
    else parts[0] + [NUL] + Join(parts[1..])
  }

  ghost predicate Plain(parts: seq<string>) {
    forall i :: 0 <= i < |parts| ==> parts[i] != "" && NUL !in parts[i]
  }

  function FirstNul(s: string): nat {
    if s == "" || s[0] == NUL then 0 else 1 + FirstNul(s[1..])
  }

  lemma {:induction false} FirstNulAfter(a: string, x: string)
    requires NUL !in a && (x == "" || x[0] == NUL)
    ensures FirstNul(a + x) == |a|
  {
    if a == "" {
      assert a + x == x;
    } else {
      assert (a + x)[1..] == a[1..] + x;
      FirstNulAfter(a[1..], x);
    }
  }

  lemma FirstPart(a: string, x: string, b: string, y: string)
    requires NUL !in a && NUL !in b
    requires (x == "" || x[0] == NUL) && (y == "" || y[0] == NUL) && a + x == b + y
    ensures a == b && x == y
  {
    FirstNulAfter(a, x);
    FirstNulAfter(b, y);
    var s := a + x;
    assert a == s[..|a|] && b == s[..|b|];
    assert x == s[|a|..] && y == s[|b|..];
  }

  function Rest(parts: seq<string>): string
    requires parts != []
  {
    if |parts| == 1 then "" else [NUL] + Join(parts[1..])
  }

  lemma JoinSplits(parts: seq<string>)
    requires parts != []
    ensures Join(parts) == parts[0] + Rest(parts)
  {
  }

  lemma JoinNonempty(parts: seq<string>)
    requires Plain(parts)
    ensures Join(parts) == "" <==> parts == []
  {
    if parts != [] {
      JoinSplits(parts);
      assert |Join(parts)| == |parts[0]| + |Rest(parts)|;
    }
  }

  /** Without NUL characters the joined form tells lists apart. */
  lemma {:induction false} JoinInjective(a: seq<string>, b: seq<string>)
    requires Plain(a) && Plain(b) && Join(a) == Join(b)
    ensures a == b
    decreases |a|
  {
    JoinNonempty(a);
    JoinNonempty(b);
    if a != [] {
      SameFirst(a, b);
      if |a| > 1 {
        JoinInjective(a[1..], b[1..]);
      }
      assert a == [a[0]] + a[1..] && b == [b[0]] + b[1..];
    }
  }

  lemma SameFirst(a: seq<string>, b: seq<string>)
    requires Plain(a) && Plain(b) && a != [] && b != [] && Join(a) == Join(b)
    ensures a[0] == b[0] && (|a| == 1 <==> |b| == 1)
    ensures |a| > 1 ==> Join(a[1..]) == Join(b[1..])
    ensures |a| == 1 ==> a[1..] == [] == b[1..]
  {
    JoinSplits(a);
    JoinSplits(b);
    FirstPart(a[0], Rest(a), b[0], Rest(b));
    SameRest(a, b);
  }

  lemma SameRest(a: seq<string>, b: seq<string>)
    requires a != [] && b != [] && Rest(a) == Rest(b)
    ensures |a| == 1 <==> |b| == 1
    ensures |a| > 1 ==> Join(a[1..]) == Join(b[1..])
    ensures |a| == 1 ==> a[1..] == [] == b[1..]
  {
    if |a| > 1 {
      assert Rest(a)[0] == NUL;
      assert Join(a[1..]) == Rest(a)[1..];
      assert |b| > 1;
      assert Join(b[1..]) == Rest(b)[1..];
    }
  }

  ghost predicate NulFree(scopes: seq<string>) {
    forall s :: s in ScopeSet(scopes) ==> NUL !in s
  }

  lemma AllPlain(scopes: seq<string>)
    requires NulFree(scopes)
    ensures Plain(Canonical(scopes))
  {
    CanonicalIsTheSet(scopes, scopes);
    forall i | 0 <= i < |Canonical(scopes)| ensures Canonical(scopes)[i] != "" && NUL !in Canonical(scopes)[i] {
      assert Canonical(scopes)[i] in ScopeSet(scopes);
    }
  }

  lemma OneScope(x: string)
    requires x != "" && TrimSpace(x) == x
    ensures FirstSeen([x]) == [x]
  {
    assert [x][..0] == [];
    assert FirstSeen([x]) == [] + [x];
  }

  lemma TwoScopes(x: string, y: string)
    requires x != "" && y != "" && Less(x, y) && TrimSpace(x) == x && TrimSpace(y) == y
    ensures Canonical([x, y]) == [x, y]
  {
    TwoFirstSeen(x, y);
    var list := [x, y];
    assert forall i, j :: 0 <= i < j < |list| ==> Leq(list[i], list[j]);
    SortFixes(Leq, list);
  }

  lemma TwoFirstSeen(x: string, y: string)
    requires x != "" && y != "" && Less(x, y) && TrimSpace(x) == x && TrimSpace(y) == y
    ensures FirstSeen([x, y]) == [x, y]
  {
    LessTrichotomy(x, y);
    OneScope(x);
    assert [x, y][..1] == [x];
    assert FirstSeen([x, y]) == [x] + [y];
  }

  /** A string normalizeOAuthScopes leaves as it is. */
  predicate Proper(s: string) {
    s != "" && TrimSpace(s) == s
  }

  lemma ProperEnds(s: string)
    requires s != ""
    ensures Proper(s) <==> !IsSpace(s[0]) && !IsSpace(s[|s| - 1])
  {
    if Proper(s) {
      TrimLeftHead(s);
      TrimRightLast(TrimLeft(s));
      TrimLengths(s);
    } else if !IsSpace(s[0]) && !IsSpace(s[|s| - 1]) {
      TrimSpaceFixed(s);
    }
  }

  lemma {:induction false} TrimLeftLength(s: string)
    ensures |TrimLeft(s)| <= |s| && (|TrimLeft(s)| == |s| ==> TrimLeft(s) == s)
  {
    if s != "" && IsSpace(s[0]) {
      TrimLeftLength(s[1..]);
    }
  }

  /** A string as long as its trimmed self is that. */
  lemma TrimLengths(s: string)
    requires s != "" && TrimSpace(s) == s
    ensures TrimLeft(s) == s
  {
    TrimLeftLength(s);
    TrimRightLast(TrimLeft(s));
  }

  /** Two proper strings with a NUL between them. */
  lemma ProperJoined(x: string, y: string)
    requires Proper(x) && Proper(y)
    ensures Proper(x + [NUL] + y)
  {
    ProperEnds(x);
    ProperEnds(y);
    ProperEnds(x + [NUL] + y);
  }

  /** What Canonical returns: proper scopes in strictly ascending order. */
  ghost predicate Listed(parts: seq<string>) {
    && (forall i :: 0 <= i < |parts| ==> Proper(parts[i]))
    && (forall i, j :: 0 <= i < j < |parts| ==> Less(parts[i], parts[j]))
  }

  lemma CanonicalListed(scopes: seq<string>)
    ensures Listed(Canonical(scopes))
  {
    var parts := Canonical(scopes);
    CanonicalIsTheSet(scopes, scopes);
    forall i | 0 <= i < |parts| ensures Proper(parts[i]) {
      assert parts[i] in ScopeSet(scopes);
      var k :| 0 <= k < |scopes| && TrimSpace(scopes[k]) == parts[i];
      TrimSpaceIdempotent(scopes[k]);
    }
    forall i, j | 0 <= i < j < |parts| ensures Less(parts[i], parts[j]) {
      assert Leq(parts[i], parts[j]) && parts[i] != parts[j];
    }
  }

  /** The joined list is proper, and longer than any one part of several. */
  lemma {:induction false} JoinProper(parts: seq<string>)
    requires Listed(parts) && parts != []
    ensures Proper(Join(parts))
  {
    if |parts| > 1 {
      ListedTail(parts);
      JoinProper(parts[1..]);
      ProperJoined(parts[0], Join(parts[1..]));
    }
  }

  lemma ListedTail(parts: seq<string>)
    requires Listed(parts) && parts != []
    ensures Listed(parts[1..])
  {
  }

  /** Where a scope can be cut into two that come in order. */
  predicate CutsAt(z: string, n: nat) {
    n < |z| && z[n] == NUL && Proper(z[..n]) && Proper(z[n + 1..]) && Less(z[..n], z[n + 1..])
  }

  predicate Cuttable(z: string) {
    exists n :: 0 <= n < |z| && CutsAt(z, n)
  }

  lemma {:induction false} LessPrefix(x: string, y: string, tail: string)
    requires Less(x, y)
    ensures Less(x, y + tail)
  {
    assert (y + tail)[0] == y[0];
    if x != "" && x[0] == y[0] {
      LessPrefix(x[1..], y[1..], tail);
      assert (y + tail)[1..] == y[1..] + tail;
    }
  }

  /** A list of several parts, joined, is cut where its first part ends. */
  lemma JoinedIsCuttable(parts: seq<string>)
    requires Listed(parts) && |parts| > 1
    ensures Cuttable(Join(parts))
  {
    var x, rest, z := parts[0], Join(parts[1..]), Join(parts);
    ListedTail(parts);
    JoinProper(parts[1..]);
    assert z[..|x|] == x && z[|x| + 1..] == rest;
    JoinSplits(parts[1..]);
    LessPrefix(x, parts[1], Rest(parts[1..]));
    assert CutsAt(z, |x|);
  }

  /** The joined form of this request is that of another scope set as well: it asks for
      several scopes, which pass for one with NULs, or for one that can be cut in order. */
  predicate Blurred(scopes: seq<string>) {
    var parts := Canonical(scopes);
    |parts| > 1 || (|parts| == 1 && Cuttable(parts[0]))
  }

  ghost predicate PassesFor(scopes: seq<string>, other: seq<string>) {
    Join(Canonical(other)) == Join(Canonical(scopes)) && ScopeSet(other) != ScopeSet(scopes)
  }

  lemma Alone(z: string)
    requires Proper(z)
    ensures Canonical([z]) == [z] && Join([z]) == z
  {
    OneScope(z);
    SortFixes(Leq, [z]);
  }

  lemma SeveralPassForOne(scopes: seq<string>)
    requires |Canonical(scopes)| > 1
    ensures PassesFor(scopes, [Join(Canonical(scopes))])
  {
    var parts := Canonical(scopes);
    var z := Join(parts);
    CanonicalListed(scopes);
    JoinProper(parts);
    Alone(z);
    CanonicalIsTheSet([z], scopes);
    assert |[z]| != |parts|;
  }

  lemma OnePassesForTwo(scopes: seq<string>, n: nat)
    requires |Canonical(scopes)| == 1 && CutsAt(Canonical(scopes)[0], n)
    ensures PassesFor(scopes, [Canonical(scopes)[0][..n], Canonical(scopes)[0][n + 1..]])
  {
    var z := Canonical(scopes)[0];
    var x, y := z[..n], z[n + 1..];
    TwoScopes(x, y);
    assert [x, y][1..] == [y];
    assert z == x + [NUL] + y;
    CanonicalIsTheSet([x, y], scopes);
    assert |[x, y]| != |Canonical(scopes)|;
  }

  /** What passes for another request is blurred. */
  lemma OnlyBlurredPass(scopes: seq<string>, other: seq<string>)
    requires PassesFor(scopes, other)
    ensures Blurred(scopes)
  {
    var parts, parts' := Canonical(scopes), Canonical(other);
    CanonicalListed(scopes);
    CanonicalListed(other);
    CanonicalIsTheSet(other, scopes);
    ShortJoins(parts, parts');
    if |parts'| > 1 {
      JoinedIsCuttable(parts');
    }
  }

  lemma ShortJoins(a: seq<string>, b: seq<string>)
    requires Listed(a) && Listed(b)
    ensures |a| <= 1 && |b| <= 1 && Join(a) == Join(b) ==> a == b
    ensures a == [] ==> !Cuttable(Join(a))
  {
  }

  /** Exactly the blurred requests share their joined form with another scope set, so the
      comparison of joined forms is that of scope sets for no others. */
  lemma BlurredIsExact(scopes: seq<string>)
    ensures (exists other :: PassesFor(scopes, other)) <==> Blurred(scopes)
  {
    if other :| PassesFor(scopes, other) {
      OnlyBlurredPass(scopes, other);
    }
    if Blurred(scopes) {
      if |Canonical(scopes)| > 1 {
        SeveralPassForOne(scopes);
      } else {
        var n :| 0 <= n < |Canonical(scopes)[0]| && CutsAt(Canonical(scopes)[0], n);
        OnePassesForTwo(scopes, n);
      }
    }
  }

  /** consumeConsentNonce compares scope sets if either request is not blurred, and
      whenever no scope holds a NUL. */
  lemma JoinedFormIsTheSet(a: seq<string>, b: seq<string>)
    requires !Blurred(a) || !Blurred(b) || (NulFree(a) && NulFree(b))
    ensures Join(Canonical(a)) == Join(Canonical(b)) <==> ScopeSet(a) == ScopeSet(b)
  {
    CanonicalIsTheSet(a, b);
    CanonicalIsTheSet(b, a);
    if Join(Canonical(a)) == Join(Canonical(b)) && ScopeSet(a) != ScopeSet(b) {
      OnlyBlurredPass(a, b);
      OnlyBlurredPass(b, a);
      AllPlain(a);
      AllPlain(b);
      JoinInjective(Canonical(a), Canonical(b));
    }
  }

  // ----- the nonce table ----------------------------------------------------------------

  datatype Record = Record(subject: string, client: string, scopes: seq<string>, query: Digest, expires: int)

  type Table = map<string, Record>

  /** What a consent is for. */
  datatype Ask = Ask(subject: string, client: string, scopes: seq<string>, query: string)

  datatype Refusal = Missing | Used | Expired | OtherSubject | OtherClient | OtherScopes | OtherQuery

  function TrimMark(s: string): string {
    if s != "" && s[0] == '?' then s[1..] else s
  }

  function QueryHash(rawQuery: string): Digest {
    Sha256(TrimMark(TrimSpace(rawQuery)))
  }

  /** The query itself: without the white space around it and one question mark before it. */
  ghost predicate QueryIs(raw: string, query: string) {
    exists lead, mark, tail :: Wraps(raw, lead, mark, query, tail)
  }

  ghost predicate Wraps(raw: string, lead: string, mark: string, query: string, tail: string) {
    && raw == lead + (mark + query) + tail && Blank(lead) && Blank(tail)
    && (mark + query == "" || (!IsSpace((mark + query)[0]) && !IsSpace((mark + query)[|mark + query| - 1])))
    && (mark == "?" || (mark == "" && (query == "" || query[0] != '?')))
  }

  /** Every raw query has one, */
  lemma QueryOf(raw: string) returns (query: string)
    ensures QueryIs(raw, query) && QueryHash(raw) == Sha256(query)
  {
    var lead, tail := TrimSpaceMeans(raw);
    var t := TrimSpace(raw);
    query := TrimMark(t);
    var mark := if t != "" && t[0] == '?' then "?" else "";
    assert t == mark + query;
    assert Wraps(raw, lead, mark, query, tail);
  }

  /** and only one. */
  lemma OneQuery(raw: string, a: string, b: string)
    requires QueryIs(raw, a) && QueryIs(raw, b)
    ensures a == b
  {
    var lead, mark, tail :| Wraps(raw, lead, mark, a, tail);
    var lead', mark', tail' :| Wraps(raw, lead', mark', b, tail');
    TrimmedIs(lead, mark + a, tail);
    TrimmedIs(lead', mark' + b, tail');
    var t := mark + a;
    assert t == mark' + b;
    assert mark == "?" ==> t[0] == '?' && t[1..] == a;
    assert mark' == "?" ==> t[0] == '?' && t[1..] == b;
    assert mark == "" ==> t == a;
    assert mark' == "" ==> t == b;
  }

  lemma {:induction false} TrimLeftLead(lead: string, s: string)
    requires Blank(lead) && (s == "" || !IsSpace(s[0]))
    ensures TrimLeft(lead + s) == s
  {
    if lead == "" {
      assert lead + s == s;
    } else {
      assert (lead + s)[1..] == lead[1..] + s;
      TrimLeftLead(lead[1..], s);
    }
  }

  lemma {:induction false} TrimRightTail(s: string, tail: string)
    requires Blank(tail) && (s == "" || !IsSpace(s[|s| - 1]))
    ensures TrimRight(s + tail) == s
  {
    if tail == "" {
      assert s + tail == s;
    } else {
      assert (s + tail)[..|s + tail| - 1] == s + tail[..|tail| - 1];
      TrimRightTail(s, tail[..|tail| - 1]);
    }
  }

  lemma TrimmedIs(lead: string, s: string, tail: string)
    requires Blank(lead) && Blank(tail) && (s == "" || (!IsSpace(s[0]) && !IsSpace(s[|s| - 1])))
    ensures TrimSpace(lead + s + tail) == s
  {
    if s == "" {
      assert Blank(lead + s + tail);
      TrimSpaceBlank(lead + s + tail);
    } else {
      assert lead + s + tail == lead + (s + tail);
      TrimLeftLead(lead, s + tail);
      TrimRightTail(s, tail);
    }
  }

  /** Two raw queries are taken for the same exactly when they hold the same query. */
  ghost predicate SameQuery(a: string, b: string) {
    exists query :: QueryIs(a, query) && QueryIs(b, query)
  }

  lemma SameQueryHash(a: string, b: string)
    ensures QueryHash(a) == QueryHash(b) <==> SameQuery(a, b)
  {
    var p := QueryOf(a);
    var q := QueryOf(b);
    if SameQuery(a, b) {
      var query :| QueryIs(a, query) && QueryIs(b, query);
      OneQuery(a, query, p);
      OneQuery(b, query, q);
    }
  }

  /** With and without its question mark, and with white space around, a query is the same. */
  lemma MarkIsNoMatter(query: string)
    requires query != "" && !IsSpace(query[0]) && !IsSpace(query[|query| - 1]) && query[0] != '?'
    ensures SameQuery(query, "?" + query)
  {
    assert Wraps(query, "", "", query, "") by {
      assert query == "" + ("" + query) + "";
    }
    assert Wraps("?" + query, "", "?", query, "") by {
      assert "?" + query == "" + ("?" + query) + "";
      assert !IsSpace('?');
    }
    assert QueryIs(query, query) && QueryIs("?" + query, query);
  }

  function RecordFor(ask: Ask, now: int): Record {
    Record(TrimSpace(ask.subject), TrimSpace(ask.client), Canonical(ask.scopes), QueryHash(ask.query), now + TTL)
  }

  /** The sweep in createConsentNonce. */
  function Swept(nonces: Table, now: int): Table {
    map token | token in nonces && nonces[token].expires > now :: nonces[token]
  }

  /** The checks on a record, in the order they are made. */
  function Check(rec: Record, ask: Ask, now: int): Option<Refusal> {
    if rec.expires <= now then Some(Expired)
    else if rec.subject != TrimSpace(ask.subject) then Some(OtherSubject)
    else if rec.client != TrimSpace(ask.client) then Some(OtherClient)
    else if Join(rec.scopes) != Join(Canonical(ask.scopes)) then Some(OtherScopes)
    else if rec.query != QueryHash(ask.query) then Some(OtherQuery)
    else None
  }

  /** consumeConsentNonce's verdict; None accepts. */
  function Judge(nonces: Table, token: string, ask: Ask, now: int): Option<Refusal> {
    var t := TrimSpace(token);
    if t == "" then Some(Missing)
    else if t !in nonces then Some(Used)
    else Check(nonces[t], ask, now)
  }

  class ConsentStore {
    var nonces: Table

    constructor ()
      ensures nonces == map[]
    {
      nonces := map[];
    }

    /** token is fresh random text, now the clock. */
    method CreateConsentNonce(token: string, ask: Ask, now: int)
      modifies this
      ensures nonces == Swept(old(nonces), now)[token := RecordFor(ask, now)]
    {
      var todo := nonces.Keys;
      while todo != {}
        invariant todo <= nonces.Keys <= old(nonces).Keys
        invariant forall t :: t in nonces ==> nonces[t] == old(nonces)[t]
        invariant forall t :: t in old(nonces) && t !in todo ==> (t in nonces <==> old(nonces)[t].expires > now)
        decreases todo
      {
        var t :| t in todo;
        todo := todo - {t};
        if nonces[t].expires <= now {
          nonces := nonces - {t};
        }
      }
      assert nonces == Swept(old(nonces), now);
      var scopes := NormalizeOAuthScopes(ask.scopes);
      nonces := nonces[token := Record(TrimSpace(ask.subject), TrimSpace(ask.client), scopes, QueryHash(ask.query),
        now + TTL)];
    }

    method ConsumeConsentNonce(token: string, ask: Ask, now: int) returns (r: Option<Refusal>)
      modifies this
      ensures r == Judge(old(nonces), token, ask, now)
      ensures nonces == if TrimSpace(token) == "" then old(nonces) else old(nonces) - {TrimSpace(token)}
    {
      var t := TrimSpace(token);
      if t == "" {
        return Some(Missing);
      }
      if t !in nonces {
        assert nonces - {t} == nonces;
        return Some(Used);
      }
      var rec := nonces[t];
      nonces := nonces - {t};
      if rec.expires <= now {
        return Some(Expired);
      }
      if rec.subject != TrimSpace(ask.subject) {
        return Some(OtherSubject);
      }
      if rec.client != TrimSpace(ask.client) {
        return Some(OtherClient);
      }
      var scopes := NormalizeOAuthScopes(ask.scopes);
      if Join(rec.scopes) != Join(scopes) {
        return Some(OtherScopes);
      }
      if rec.query != QueryHash(ask.query) {
        return Some(OtherQuery);
      }
      return None;
    }
  }

  // ----- whole runs ---------------------------------------------------------------------

  datatype Event = Create(token: string, ask: Ask, now: int) | Consume(token: string, ask: Ask, now: int)

  function Next(nonces: Table, e: Event): Table {
    match e
    case Create(token, ask, now) => Swept(nonces, now)[token := RecordFor(ask, now)]
    case Consume(token, _, _) => if TrimSpace(token) == "" then nonces else nonces - {TrimSpace(token)}
  }

  function After(events: seq<Event>): Table {
    if events == [] then map[] else Next(After(events[..|events| - 1]), events[|events| - 1])
  }

  /** Event k is a Consume and was accepted. */
  predicate Accepts(nonces: Table, e: Event) {
    e.Consume? && Judge(nonces, e.token, e.ask, e.now).None?
  }

  predicate AcceptedAt(events: seq<Event>, k: nat)
    requires k < |events|
  {
    Accepts(After(events[..k]), events[k])
  }

  /** Random tokens: never the same twice, and nothing to trim. */
  ghost predicate FreshTokens(events: seq<Event>) {
    && (forall i :: 0 <= i < |events| && events[i].Create? ==>
       events[i].token != "" && TrimSpace(events[i].token) == events[i].token)
    && (forall i, j :: 0 <= i < j < |events| && events[i].Create? && events[j].Create? ==>
       events[i].token != events[j].token)
  }

  ghost predicate Forward(events: seq<Event>) {
    forall i, j :: 0 <= i < j < |events| ==> events[i].now <= events[j].now
  }

  predicate Made(e: Event, token: string, rec: Record) {
    e.Create? && e.token == token && RecordFor(e.ask, e.now) == rec
  }

  /** Every record was made by an earlier createConsentNonce. */
  lemma {:induction false} RecordsWereMade(events: seq<Event>, token: string)
    requires token in After(events)
    ensures exists i :: 0 <= i < |events| && Made(events[i], token, After(events)[token])
  {
    var n := |events| - 1;
    var e, before := events[n], After(events[..n]);
    if e.Create? && e.token == token {
      assert Made(events[n], token, After(events)[token]);
    } else {
      RecordsWereMade(events[..n], token);
      var i :| 0 <= i < n && Made(events[..n][i], token, before[token]);
      assert Made(events[i], token, After(events)[token]);
    }
  }

  /** Whatever scopes the table is asked with, an accepted nonce was created earlier for the
      same subject, client and query, for the same scope set unless both requests are blurred,
      and has not expired. */
  lemma AcceptedMatches(events: seq<Event>, k: nat) returns (i: nat)
    requires k < |events| && AcceptedAt(events, k)
    ensures i < k && events[i].Create? && events[i].token == TrimSpace(events[k].token)
    ensures events[k].now < events[i].now + TTL
    ensures var asked, given := events[i].ask, events[k].ask;
            && TrimSpace(asked.subject) == TrimSpace(given.subject)
               && TrimSpace(asked.client) == TrimSpace(given.client)
            && SameQuery(asked.query, given.query)
            && (ScopeSet(asked.scopes) == ScopeSet(given.scopes) || PassesFor(asked.scopes, given.scopes))
            && (!Blurred(asked.scopes) || !Blurred(given.scopes) ==> ScopeSet(asked.scopes) == ScopeSet(given.scopes))
            && (NulFree(asked.scopes) && NulFree(given.scopes) ==> ScopeSet(asked.scopes) == ScopeSet(given.scopes))
  {
    var token := TrimSpace(events[k].token);
    var before := After(events[..k]);
    RecordsWereMade(events[..k], token);
    i :| 0 <= i < k && Made(events[..k][i], token, before[token]);
    SameQueryHash(events[i].ask.query, events[k].ask.query);
    var asked, given := events[i].ask.scopes, events[k].ask.scopes;
    if !Blurred(asked) || !Blurred(given) || (NulFree(asked) && NulFree(given)) {
      JoinedFormIsTheSet(asked, given);
    }
  }

  /** Why a nonce is refused: the first of these that holds, and none of them when it is accepted. */
  lemma RefusedFor(nonces: Table, token: string, ask: Ask, made: Ask, at: int, now: int)
    requires Proper(token) && token in nonces && nonces[token] == RecordFor(made, at)
    ensures Judge(nonces, token, ask, now) ==
            if now >= at + 300_000_000_000 then Some(Expired)
            else if TrimSpace(ask.subject) != TrimSpace(made.subject) then Some(OtherSubject)
            else if TrimSpace(ask.client) != TrimSpace(made.client) then Some(OtherClient)
            else if Join(Canonical(made.scopes)) != Join(Canonical(ask.scopes)) then Some(OtherScopes)
            else if !SameQuery(made.query, ask.query) then Some(OtherQuery)
            else None
  {
    SameQueryHash(made.query, ask.query);
  }

  /** A nonce survives a sweep while it is less than five minutes old, as it was. */
  lemma KeptBySweep(nonces: Table, token: string, made: Ask, at: int, now: int)
    requires token in nonces && nonces[token] == RecordFor(made, at)
    ensures token in Swept(nonces, now) <==> now < at + 300_000_000_000
    ensures token in Swept(nonces, now) ==> Swept(nonces, now)[token] == nonces[token]
  {
  }

  /** And of a token that is blank, or not in the table. */
  lemma RefusedWithout(nonces: Table, token: string, ask: Ask, now: int)
    ensures Judge(nonces, token, ask, now) == Some(Missing) <==> Blank(token)
    ensures Judge(nonces, token, ask, now) == Some(Used) <==> !Blank(token) && TrimSpace(token) !in nonces
  {
    TrimSpaceBlank(token);
  }

  /** The table alone, asked with any scopes, would take a nonce for another scope set exactly
      when the request it was made for is blurred and the rest of the request and the time are right. */
  lemma OtherScopesAreAccepted(nonces: Table, token: string, ask: Ask, made: int, now: int)
    requires Proper(token) && token in nonces && nonces[token] == RecordFor(ask, made) && now < made + TTL
    ensures (exists other ::
            ScopeSet(other) != ScopeSet(ask.scopes) && Judge(nonces, token, ask.(scopes := other), now).None?)
            <==> Blurred(ask.scopes)
  {
    forall other ensures Judge(nonces, token, ask.(scopes := other), now).None? <==>
      Join(Canonical(other)) == Join(Canonical(ask.scopes)) {
    }
    BlurredIsExact(ask.scopes);
    if other :| ScopeSet(other) != ScopeSet(ask.scopes) && Judge(nonces, token, ask.(scopes := other), now).None? {
      assert PassesFor(ask.scopes, other);
    }
    if other :| PassesFor(ask.scopes, other) {
      assert Judge(nonces, token, ask.(scopes := other), now).None?;
    }
  }

  // ----- what the handlers ask with -----------------------------------------------------

  /** SupportedOAuthScopes. */
  predicate Supported(scope: string) {
    scope == "pindoc" || scope == "offline_access"
  }

  function Granted(requested: seq<string>): seq<string> {
    if requested == [] then []
    else
      var n := |requested| - 1;
      if Supported(requested[n]) then Granted(requested[..n]) + [requested[n]] else Granted(requested[..n])
  }

  /** grantRequestedScopes: both handlers pass on the supported ones of the requested scopes. */
  method GrantRequestedScopes(requested: seq<string>) returns (granted: seq<string>)
    ensures granted == Granted(requested)
  {
    granted := [];
    for i := 0 to |requested|
      invariant granted == Granted(requested[..i])
    {
      assert requested[..i + 1][..i] == requested[..i];
      if Supported(requested[i]) {
        granted := granted + [requested[i]];
      }
    }
    assert requested[..|requested|] == requested;
  }

  /** The two of them, by name. */
  lemma SupportedAre(scope: string)
    ensures Supported(scope) <==> scope in {"pindoc", "offline_access"}
  {
  }

  /** A supported scope is proper and holds no NUL. */
  lemma SupportedIsPlain(scope: string)
    requires Supported(scope)
    ensures Proper(scope) && NUL !in scope
  {
    if scope == "pindoc" {
      assert scope == ['p', 'i', 'n', 'd', 'o', 'c'];
    } else {
      assert scope == ['o', 'f', 'f', 'l', 'i', 'n', 'e', '_', 'a', 'c', 'c', 'e', 's', 's'];
    }
    ProperEnds(scope);
  }

  lemma {:induction false} GrantedMembers(requested: seq<string>, s: string)
    ensures s in Granted(requested) <==> s in requested && Supported(s)
  {
    if requested != [] {
      var n := |requested| - 1;
      GrantedMembers(requested[..n], s);
      assert requested == requested[..n] + [requested[n]];
    }
  }

  /** What a request gets is what it asked for of the supported scopes, and that holds no NUL. */
  lemma GrantedIsPlain(requested: seq<string>)
    ensures NulFree(Granted(requested))
    ensures forall s :: s in ScopeSet(Granted(requested)) <==> s in requested && Supported(s)
  {
    var granted := Granted(requested);
    forall i | 0 <= i < |granted| ensures Supported(granted[i]) && TrimSpace(granted[i]) == granted[i] != "" {
      GrantedMembers(requested, granted[i]);
      SupportedIsPlain(granted[i]);
    }
    forall s ensures s in ScopeSet(granted) <==> s in granted {
      if s in granted {
        var i :| 0 <= i < |granted| && granted[i] == s;
        assert TrimSpace(granted[i]) in ScopeSet(granted);
      }
    }
    forall s ensures s in ScopeSet(granted) <==> s in requested && Supported(s) {
      GrantedMembers(requested, s);
    }
    forall s | s in ScopeSet(granted) ensures NUL !in s {
      SupportedIsPlain(s);
    }
  }

  /** The calls handleConsentInfo and handleAuthorizeConfirm make of the table. */
  function Handled(requests: seq<Event>): (r: seq<Event>)
    ensures |r| == |requests|
    ensures forall i :: 0 <= i < |r| ==>
              r[i] == requests[i].(ask := requests[i].ask.(scopes := Granted(requests[i].ask.scopes)))
  {
    seq(|requests|, i requires 0 <= i < |requests| =>
      requests[i].(ask := requests[i].ask.(scopes := Granted(requests[i].ask.scopes))))
  }

  /** Over every run of requests, an accepted nonce was created earlier for the same subject,
      client, query and supported scopes, and has not expired. */
  lemma AcceptedWasCreated(requests: seq<Event>, k: nat) returns (i: nat)
    requires k < |requests| && AcceptedAt(Handled(requests), k)
    ensures i < k && requests[i].Create? && requests[i].token == TrimSpace(requests[k].token)
    ensures requests[k].now < requests[i].now + TTL
    ensures var asked, given := requests[i].ask, requests[k].ask;
            && TrimSpace(asked.subject) == TrimSpace(given.subject)
            && TrimSpace(asked.client) == TrimSpace(given.client)
            && SameQuery(asked.query, given.query)
            && ScopeSet(Granted(asked.scopes)) == ScopeSet(Granted(given.scopes))
            && forall s :: Supported(s) ==> (s in asked.scopes <==> s in given.scopes)
  {
    i := AcceptedMatches(Handled(requests), k);
    GrantedIsPlain(requests[i].ask.scopes);
    GrantedIsPlain(requests[k].ask.scopes);
  }

  /** A token that is not in the table and is not created again stays out of it. */
  lemma {:induction false} StaysOut(events: seq<Event>, k: nat, token: string)
    requires k <= |events| && token !in After(events[..k])
    requires forall i :: k <= i < |events| && events[i].Create? ==> events[i].token != token
    ensures token !in After(events)
    decreases |events| - k
  {
    if k == |events| {
      assert events[..k] == events;
    } else {
      assert events[..k + 1][..k] == events[..k];
      StaysOut(events, k + 1, token);
    }
  }

  /** Any attempt on a live nonce burns it: no later one on it is accepted. */
  lemma AttemptBurns(events: seq<Event>, i: nat, j: nat)
    requires i < j < |events| && FreshTokens(events) && events[i].Consume?
             && TrimSpace(events[i].token) in After(events[..i])
    requires TrimSpace(events[j].token) == TrimSpace(events[i].token)
    ensures !AcceptedAt(events, j)
  {
    var token := TrimSpace(events[i].token);
    OnlyMadeBefore(events, i, token);
    BurntAfter(events, i, token);
    assert events[..j][..i + 1] == events[..i + 1];
    StaysOut(events[..j], i + 1, token);
  }

  /** A token in the table has been created, and is not created again. */
  lemma OnlyMadeBefore(events: seq<Event>, i: nat, token: string)
    requires i <= |events| && FreshTokens(events) && token in After(events[..i])
    ensures token != "" && forall c :: i <= c < |events| && events[c].Create? ==> events[c].token != token
  {
    RecordsWereMade(events[..i], token);
    var c :| 0 <= c < i && Made(events[..i][c], token, After(events[..i])[token]);
    assert events[c].Create? && events[c].token == token;
  }

  lemma BurntAfter(events: seq<Event>, i: nat, token: string)
    requires i < |events| && events[i].Consume? && TrimSpace(events[i].token) == token != ""
    ensures token !in After(events[..i + 1])
  {
    assert events[..i + 1][..i] == events[..i];
  }

  /** Each nonce is accepted at most once. */
  lemma AcceptedAtMostOnce(events: seq<Event>, i: nat, j: nat)
    requires i < j < |events| && FreshTokens(events) && AcceptedAt(events, i)
    requires TrimSpace(events[j].token) == TrimSpace(events[i].token)
    ensures !AcceptedAt(events, j)
  {
    AttemptBurns(events, i, j);
  }

  // ----- the sweep ------------------------------------------------------------------------

  /** The table of a store that never sweeps. */
  function Unswept(events: seq<Event>): Table {
    if events == [] then map[]
    else
      var n := |events| - 1;
      var before := Unswept(events[..n]);
      match events[n]
      case Create(token, ask, now) => before[token := RecordFor(ask, now)]
      case Consume(token, _, _) => if TrimSpace(token) == "" then before else before - {TrimSpace(token)}
  }

  /** Under a token the two tables differ at most by an expired record. */
  ghost predicate Alike(swept: Table, full: Table, token: string, now: int) {
    && (token in swept ==> token in full && full[token] == swept[token])
    && (token in full && token !in swept ==> full[token].expires <= now)
  }

  lemma {:induction false} TablesAlike(events: seq<Event>, token: string, now: int)
    requires Forward(events) && forall i :: 0 <= i < |events| ==> events[i].now <= now
    ensures Alike(After(events), Unswept(events), token, now)
  {
    if events != [] {
      var n := |events| - 1;
      TablesAlike(events[..n], token, events[n].now);
    }
  }

  /** Sweeping expired nonces never changes whether a nonce is accepted. */
  lemma SweepChangesNoVerdict(events: seq<Event>, k: nat)
    requires k < |events| && Forward(events)
    ensures AcceptedAt(events, k) <==> Accepts(Unswept(events[..k]), events[k])
  {
    TablesAlike(events[..k], TrimSpace(events[k].token), events[k].now);
  }

  /** A nonce that is used by the one it was made for, in time and for the first time, is accepted. */
  lemma FirstUseIsAccepted(events: seq<Event>, i: nat, k: nat)
    requires i < k < |events| && FreshTokens(events) && Forward(events) && events[i].Create? && events[k].Consume?
    requires TrimSpace(events[k].token) == events[i].token && events[k].ask == events[i].ask
             && events[k].now < events[i].now + TTL
    requires forall j :: i < j < k && events[j].Consume? ==> TrimSpace(events[j].token) != events[i].token
    ensures AcceptedAt(events, k)
  {
    StaysIn(events, i, k);
  }

  lemma {:induction false} StaysIn(events: seq<Event>, i: nat, k: nat)
    requires i < k <= |events| && FreshTokens(events) && Forward(events) && events[i].Create?
    requires forall j :: i < j < k ==> events[j].now < events[i].now + TTL
    requires forall j :: i < j < k && events[j].Consume? ==> TrimSpace(events[j].token) != events[i].token
    ensures events[i].token in After(events[..k])
            && After(events[..k])[events[i].token] == RecordFor(events[i].ask, events[i].now)
    decreases k
  {
    AfterOneMore(events, k - 1);
    if i + 1 < k {
      StaysIn(events, i, k - 1);
      var nonces, e := After(events[..k - 1]), events[k - 1];
      assert e.Create? ==> nonces[events[i].token].expires > e.now && e.token != events[i].token;
      StepKeeps(nonces, e, events[i].token);
    }
  }

  lemma AfterOneMore(events: seq<Event>, k: nat)
    requires k < |events|
    ensures After(events[..k + 1]) == Next(After(events[..k]), events[k])
  {
    assert events[..k + 1][..k] == events[..k];
  }

  /** A record outlives a sweep before its expiry, another creation, and attempts on other tokens. */
  lemma StepKeeps(nonces: Table, e: Event, token: string)
    requires token in nonces
    requires if e.Create? then nonces[token].expires > e.now && e.token != token else TrimSpace(e.token) != token
    ensures token in Next(nonces, e) && Next(nonces, e)[token] == nonces[token]
  {
  }
}
