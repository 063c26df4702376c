/** `maskSecrets`: what a stored mail body can still contain. */
module Masking {
  import opened Strings

  const MARKER := "[redacted]"

  /** `String.prototype.replaceAll` with a string pattern: leftmost matches, not overlapping. */
  function ReplaceAll(s: string, p: string): string
    requires p != ""
    decreases |s|
  {
    if s == "" then ""
    else if IsPrefix(p, s) then MARKER + ReplaceAll(s[|p|..], p)
    else [s[0]] + ReplaceAll(s[1..], p)
  }

  /** The secrets that are long enough to be masked, one after another. */
  function Masked(body: string, secrets: seq<string>): string
    decreases |secrets|
  {
    if secrets == [] then body
    else
      var secret := secrets[|secrets| - 1];
      var masked := Masked(body, secrets[..|secrets| - 1]);
      if |secret| < 8 then masked else ReplaceAll(masked, secret)
  }

  method MaskSecrets(body: string, secrets: seq<string>) returns (masked: string)
    ensures masked == Masked(body, secrets)
    // All that is hidden is secrets of the list, and all the text between them is kept.
    ensures (forall p <- secrets :: |p| >= 8 ==> Maskable(p)) ==>
      exists t :: Raw(t) == body && Shown(t) == masked && HidesOnly(t, secrets)
  {
    masked := body;
    for n := 0 to |secrets|
      invariant masked == Masked(body, secrets[..n])
    {
      assert secrets[..n + 1][..n] == secrets[..n];
      if |secrets[n]| >= 8 {
        masked := ReplaceAll(masked, secrets[n]);
      }
    }
    assert secrets[..|secrets|] == secrets;
    if forall p <- secrets :: |p| >= 8 ==> Maskable(p) {
      var _ := OnlySecretsAreHidden(body, secrets);
    }
  }

  // --- No secret survives ------------------------------------------------------------------

  /** One of them starts with the other. */
  predicate Agree(a: string, b: string) {
    IsPrefix(a, b) || IsPrefix(b, a)
  }

  /** A secret that cannot overlap the marker: no part of either, up to its end, agrees with the
      start of the other. So the marker cannot help to spell it. */
  predicate Maskable(p: string) {
    && |p| >= 8
    && (forall j | 0 <= j < |p| :: !Agree(p[j..], MARKER))
    && (forall i | 0 < i < |MARKER| :: !Agree(MARKER[i..], p))
  }

  lemma OccursInTail(s: string, p: string, k: nat)
    requires k <= |s| && Contains(s[k..], p)
    ensures Contains(s, p)
  {
    var i :| OccursAt(s[k..], p, i);
    assert s[k + i..k + i + |p|] == s[k..][i..i + |p|];
    assert OccursAt(s, p, k + i);
  }

  lemma OverlapAgrees(t: string, p: string, i: nat)
    requires OccursAt(MARKER + t, p, i) && i < |MARKER|
    ensures Agree(MARKER[i..], p)
    ensures i == 0 ==> Agree(p[0..], MARKER)
  {
    var n := if |p| < |MARKER| - i then |p| else |MARKER| - i;
    assert (MARKER + t)[i..i + |p|][..n] == MARKER[i..][..n] == p[..n];
    assert MARKER[0..] == MARKER && p[0..] == p;
  }

  lemma OccursBehind(a: string, b: string, p: string, i: int)
    requires OccursAt(a + b, p, i) && i >= |a|
    ensures OccursAt(b, p, i - |a|)
  {
    assert b[i - |a|..i - |a| + |p|] == (a + b)[i..i + |p|];
  }

  lemma NotInMarker(t: string, p: string, i: int)
    requires Maskable(p) && OccursAt(MARKER + t, p, i)
    ensures i >= |MARKER|
  {
    if i < |MARKER| { OverlapAgrees(t, p, i); }
  }

  /** Replacing `q` brings no maskable `p` into the text. */
  lemma {:induction false} ReplaceAddsNone(s: string, q: string, p: string, i: int)
    requires q != "" && Maskable(p) && OccursAt(ReplaceAll(s, q), p, i)
    ensures Contains(s, p)
    decreases |s|
  {
    var r := ReplaceAll(s, q);
    if s == "" {
    } else if IsPrefix(q, s) {
      var rest := ReplaceAll(s[|q|..], q);
      NotInMarker(rest, p, i);
      OccursBehind(MARKER, rest, p, i);
      ReplaceAddsNone(s[|q|..], q, p, i - |MARKER|);
      OccursInTail(s, p, |q|);
    } else {
      var rest := ReplaceAll(s[1..], q);
      if i > 0 {
        OccursBehind([s[0]], rest, p, i);
        ReplaceAddsNone(s[1..], q, p, i - 1);
        OccursInTail(s, p, 1);
      } else {
        PrefixSurvives(s, q, p, 0);
        assert OccursAt(s, p, 0);
      }
    }
  }

  /** If the replaced text starts with a maskable `p`, no match was replaced within it. */
  lemma {:induction false} PrefixSurvives(s: string, q: string, p: string, k: nat)
    requires q != "" && k <= |p| && Maskable(p) && IsPrefix(p[k..], ReplaceAll(s, q))
    ensures IsPrefix(p[k..], s)
    decreases |p| - k
  {
    if k < |p| {
      var r := ReplaceAll(s, q);
      assert s != "";
      if IsPrefix(q, s) {
        PrefixesAgree(p[k..], MARKER, r);
      } else {
        var rest := ReplaceAll(s[1..], q);
        assert r[0] == p[k..][0] == p[k] && rest == r[1..];
        assert rest[..|p| - k - 1] == r[..|p| - k][1..] == p[k + 1..];
        PrefixSurvives(s[1..], q, p, k + 1);
        assert s == [s[0]] + s[1..] && p[k..] == [p[k]] + p[k + 1..];
      }
    }
  }

  lemma PrefixesAgree(a: string, b: string, s: string)
    requires IsPrefix(a, s) && IsPrefix(b, s)
    ensures Agree(a, b)
  {
    if |a| <= |b| {
      assert b[..|a|] == s[..|b|][..|a|] == a;
    } else {
      assert a[..|b|] == s[..|a|][..|b|] == b;
    }
  }

  /** Replacing `p` leaves none of it, not even across the edge of a replacement. */
  lemma {:induction false} ReplaceRemoves(s: string, p: string, i: int)
    requires Maskable(p)
    ensures !OccursAt(ReplaceAll(s, p), p, i)
    decreases |s|
  {
    if OccursAt(ReplaceAll(s, p), p, i) {
      var r := ReplaceAll(s, p);
      if s == "" {
      } else if IsPrefix(p, s) {
        var rest := ReplaceAll(s[|p|..], p);
        NotInMarker(rest, p, i);
        OccursBehind(MARKER, rest, p, i);
        ReplaceRemoves(s[|p|..], p, i - |MARKER|);
      } else if i > 0 {
        var rest := ReplaceAll(s[1..], p);
        OccursBehind([s[0]], rest, p, i);
        ReplaceRemoves(s[1..], p, i - 1);
      } else {
        assert p[0..] == p && r[0..|p|] == r[..|p|];
        PrefixSurvives(s, p, p, 0);
      }
    }
  }

  /** Every maskable secret is gone from the result, whatever else is in the list, in whatever
      order: a later replacement never brings one back. */
  lemma {:induction false} NoSecretSurvives(body: string, secrets: seq<string>, k: nat)
    requires k < |secrets| && Maskable(secrets[k])
    ensures !Contains(Masked(body, secrets), secrets[k])
    decreases |secrets|
  {
    var n := |secrets| - 1;
    var before := Masked(body, secrets[..n]);
    if i :| OccursAt(Masked(body, secrets), secrets[k], i) {
      if k == n {
        ReplaceRemoves(before, secrets[k], i);
      } else {
        assert secrets[..n][k] == secrets[k];
        NoSecretSurvives(body, secrets[..n], k);
        if |secrets[n]| >= 8 {
          ReplaceAddsNone(before, secrets[n], secrets[k], i);
        }
      }
    }
  }

  lemma {:induction false} NothingToReplace(s: string, p: string)
    requires p != "" && !Contains(s, p)
    ensures ReplaceAll(s, p) == s
    decreases |s|
  {
    if s == "" {
    } else {
      if IsPrefix(p, s) { assert OccursAt(s, p, 0); }
      if Contains(s[1..], p) { OccursInTail(s, p, 1); }
      NothingToReplace(s[1..], p);
    }
  }

  /** A body that names no secret is stored as it is. */
  lemma {:induction false} CleanBodyIsKept(body: string, secrets: seq<string>)
    requires forall k :: 0 <= k < |secrets| && |secrets[k]| >= 8 ==> !Contains(body, secrets[k])
    ensures Masked(body, secrets) == body
    decreases |secrets|
  {
    if secrets == [] {
    } else {
      var n := |secrets| - 1;
      assert forall k :: 0 <= k < n ==> secrets[..n][k] == secrets[k];
      CleanBodyIsKept(body, secrets[..n]);
      if |secrets[n]| >= 8 { NothingToReplace(body, secrets[n]); }
    }
  }

  /** Masking a second time changes nothing. */
  lemma MaskingIsIdempotent(body: string, secrets: seq<string>)
    requires forall k :: 0 <= k < |secrets| && |secrets[k]| >= 8 ==> Maskable(secrets[k])
    ensures Masked(Masked(body, secrets), secrets) == Masked(body, secrets)
  {
    forall k | 0 <= k < |secrets| && |secrets[k]| >= 8
      ensures !Contains(Masked(body, secrets), secrets[k])
    {
      NoSecretSurvives(body, secrets, k);
    }
    CleanBodyIsKept(Masked(body, secrets), secrets);
  }

  // --- What is kept ------------------------------------------------------------------------

  /** A text with some of its pieces hidden, each behind the kept piece that runs up to it. */
  datatype Text = End(kept: string) | Then(kept: string, hidden: string, rest: Text)

  function Raw(t: Text): string {
    match t
    case End(kept) => kept
    case Then(kept, hidden, rest) => kept + hidden + Raw(rest)
  }

  function Shown(t: Text): string {
    match t
    case End(kept) => kept
    case Then(kept, _, rest) => kept + MARKER + Shown(rest)
  }

  /** What is hidden is each time the leftmost `p` of the text that is left. */
  ghost predicate Leftmost(t: Text, p: string) {
    match t
    case End(kept) => !Contains(kept, p)
    case Then(kept, hidden, rest) =>
      hidden == p && (forall i | 0 <= i < |kept| :: !OccursAt(kept + p, p, i)) && Leftmost(rest, p)
  }

  /** What is hidden is in the list, and long enough. */
  predicate HidesOnly(t: Text, secrets: seq<string>) {
    t.Then? ==> t.hidden in secrets && |t.hidden| >= 8 && HidesOnly(t.rest, secrets)
  }

  lemma PrefixOfPart(p: string, a: string, b: string)
    requires |p| <= |a|
    ensures IsPrefix(p, a + b) <==> IsPrefix(p, a)
    ensures OccursAt(a, p, 0) <==> IsPrefix(p, a)
  {
    assert (a + b)[..|p|] == a[..|p|] == a[0..0 + |p|];
  }

  lemma OccursLater(s: string, p: string, i: int)
    requires s != "" && i >= 0
    ensures OccursAt(s[1..], p, i) <==> OccursAt(s, p, i + 1)
  {
    if i + 1 + |p| <= |s| { assert s[1..][i..i + |p|] == s[i + 1..i + 1 + |p|]; }
  }

  lemma {:induction false} ReplaceBehind(m: string, tail: string, p: string)
    requires p != "" && forall i | 0 <= i < |m| :: !OccursAt(m + tail, p, i)
    ensures ReplaceAll(m + tail, p) == m + ReplaceAll(tail, p)
    decreases |m|
  {
    var s := m + tail;
    if m == "" {
      assert s == tail;
    } else {
      assert OccursAt(s, p, 0) <==> IsPrefix(p, s) by {
        if |p| <= |s| { assert s[0..0 + |p|] == s[..|p|]; }
      }
      assert s[1..] == m[1..] + tail && s[0] == m[0];
      forall i | 0 <= i < |m[1..]|
        ensures !OccursAt(m[1..] + tail, p, i)
      {
        OccursLater(s, p, i);
      }
      ReplaceBehind(m[1..], tail, p);
    }
  }

  lemma OccursEarlier(a: string, b: string, p: string, i: int)
    requires i + |p| <= |a|
    ensures OccursAt(a + b, p, i) <==> OccursAt(a, p, i)
  {
    if i >= 0 { assert (a + b)[i..i + |p|] == a[i..i + |p|]; }
  }

  lemma KeptThenHidden(kept: string, p: string, tail: string)
    requires p != "" && forall i | 0 <= i < |kept| :: !OccursAt(kept + p, p, i)
    ensures ReplaceAll(kept + p + tail, p) == kept + MARKER + ReplaceAll(tail, p)
  {
    assert kept + p + tail == kept + (p + tail) && (p + tail)[|p|..] == tail;
    forall i | 0 <= i < |kept|
      ensures !OccursAt(kept + (p + tail), p, i)
    {
      OccursEarlier(kept + p, tail, p, i);
    }
    ReplaceBehind(kept, p + tail, p);
  }

  /** Hiding the leftmost occurrences one after another, and nothing else, is what replacing does. */
  lemma {:induction false} ReplaceHidesLeftmost(t: Text, p: string)
    requires p != "" && Leftmost(t, p)
    ensures ReplaceAll(Raw(t), p) == Shown(t)
    decreases t
  {
    match t {
      case End(kept) =>
        NothingToReplace(kept, p);
      case Then(kept, _, rest) =>
        KeptThenHidden(kept, p, Raw(rest));
        ReplaceHidesLeftmost(rest, p);
    }
  }

  lemma LeftmostBehind(c: char, t: Text, p: string)
    requires p != "" && Leftmost(t, p) && !IsPrefix(p, [c] + Raw(t))
    ensures Leftmost(t.(kept := [c] + t.kept), p) && Raw(t.(kept := [c] + t.kept)) == [c] + Raw(t)
  {
    var s := if t.End? then [c] + t.kept else [c] + t.kept + p;
    var tail := if t.End? then "" else Raw(t.rest);
    assert [c] + Raw(t) == s + tail;
    assert s[1..] == if t.End? then t.kept else t.kept + p;
    if |p| <= |s| { PrefixOfPart(p, s, tail); }
    forall i | 0 <= i && (t.Then? ==> i < |[c] + t.kept|)
      ensures !OccursAt(s, p, i)
    {
      if i > 0 { OccursLater(s, p, i - 1); }
    }
  }

  lemma {:induction false} CutAtLeftmost(s: string, p: string) returns (t: Text)
    requires p != ""
    ensures Raw(t) == s && Leftmost(t, p)
    decreases |s|
  {
    if s == "" {
      t := End("");
    } else if IsPrefix(p, s) {
      var rest := CutAtLeftmost(s[|p|..], p);
      t := Then("", p, rest);
    } else {
      var rest := CutAtLeftmost(s[1..], p);
      LeftmostBehind(s[0], rest, p);
      t := rest.(kept := [s[0]] + rest.kept);
    }
  }

  /** One secret: the stored text is the body with each leftmost occurrence hidden in turn, and
      all of the text between them is kept. */
  lemma ReplacedIff(s: string, p: string, r: string)
    requires p != ""
    ensures r == ReplaceAll(s, p) <==> exists t :: Raw(t) == s && Shown(t) == r && Leftmost(t, p)
  {
    var cut := CutAtLeftmost(s, p);
    ReplaceHidesLeftmost(cut, p);
    forall t | Raw(t) == s && Leftmost(t, p) { ReplaceHidesLeftmost(t, p); }
  }

  /** Any list: each secret of at least eight characters is hidden in turn, wherever it is leftmost
      in the text that the ones before it left. */
  lemma MaskedOneByOne(body: string, secrets: seq<string>, p: string, r: string)
    ensures Masked(body, []) == body
    ensures |p| < 8 ==> Masked(body, secrets + [p]) == Masked(body, secrets)
    ensures var hides := exists t :: Raw(t) == Masked(body, secrets) && Shown(t) == r && Leftmost(t, p);
      |p| >= 8 ==> (r == Masked(body, secrets + [p]) <==> hides)
  {
    assert (secrets + [p])[..|secrets|] == secrets;
    if |p| >= 8 { ReplacedIff(Masked(body, secrets), p, r); }
  }

  /** `t`, then a hidden piece, then `rest`. */
  function Chained(t: Text, hidden: string, rest: Text): Text {
    match t
    case End(kept) => Then(kept, hidden, rest)
    case Then(kept, h, r) => Then(kept, h, Chained(r, hidden, rest))
  }

  lemma {:induction false} ChainedText(t: Text, hidden: string, rest: Text)
    ensures Raw(Chained(t, hidden, rest)) == Raw(t) + hidden + Raw(rest)
    ensures Shown(Chained(t, hidden, rest)) == Shown(t) + MARKER + Shown(rest)
    decreases t
  {
    if t.Then? {
      ChainedText(t.rest, hidden, rest);
      var k, h, r := t.kept, t.hidden, t.rest;
      assert k + h + (Raw(r) + hidden + Raw(rest)) == (k + h + Raw(r)) + hidden + Raw(rest);
      assert k + MARKER + (Shown(r) + MARKER + Shown(rest)) == (k + MARKER + Shown(r)) + MARKER + Shown(rest);
    }
  }

  lemma {:induction false} ChainedHides(t: Text, hidden: string, rest: Text, secrets: seq<string>)
    requires HidesOnly(t, secrets) && hidden in secrets && |hidden| >= 8 && HidesOnly(rest, secrets)
    ensures HidesOnly(Chained(t, hidden, rest), secrets)
    decreases t
  {
    if t.Then? { ChainedHides(t.rest, hidden, rest, secrets); }
  }

  lemma MarkerIsKept(tail: string, p: string)
    requires Maskable(p)
    ensures ReplaceAll(MARKER + tail, p) == MARKER + ReplaceAll(tail, p)
  {
    forall i | 0 <= i < |MARKER|
      ensures !OccursAt(MARKER + tail, p, i)
    {
      if OccursAt(MARKER + tail, p, i) { NotInMarker(tail, p, i); }
    }
    ReplaceBehind(MARKER, tail, p);
  }

  lemma PrefixOfJoin(a: string, b: string, p: string)
    ensures IsPrefix(p, a) ==> IsPrefix(p, a + b)
    ensures IsPrefix(p, a + b) ==> IsPrefix(p, a) || (|a| < |p| && IsPrefix(p[|a|..], b))
  {
    if |p| <= |a| {
      assert (a + b)[..|p|] == a[..|p|];
    } else if IsPrefix(p, a + b) {
      assert p[|a|..] == (a + b)[..|p|][|a|..] == b[..|p| - |a|];
    }
  }

  /** Where no end of `p` starts `b`, no occurrence runs from `a` into `b`. */
  lemma {:induction false} ReplaceJoin(a: string, b: string, p: string)
    requires p != "" && forall j | 0 <= j < |p| :: !IsPrefix(p[j..], b)
    ensures ReplaceAll(a + b, p) == ReplaceAll(a, p) + ReplaceAll(b, p)
    decreases |a|
  {
    if a == "" {
      assert a + b == b;
    } else {
      PrefixOfJoin(a, b, p);
      var n := if IsPrefix(p, a) then |p| else 1;
      assert (a + b)[n..] == a[n..] + b && (a + b)[0] == a[0];
      ReplaceJoin(a[n..], b, p);
    }
  }

  /** A maskable secret is replaced on either side of a marker, and never across it. */
  lemma ReplaceAroundMarker(kept: string, tail: string, p: string)
    requires Maskable(p)
    ensures ReplaceAll(kept + MARKER + tail, p) == ReplaceAll(kept, p) + MARKER + ReplaceAll(tail, p)
  {
    assert kept + MARKER + tail == kept + (MARKER + tail);
    forall j | 0 <= j < |p|
      ensures !IsPrefix(p[j..], MARKER + tail)
    {
      if IsPrefix(p[j..], MARKER + tail) { PrefixesAgree(p[j..], MARKER, MARKER + tail); }
    }
    ReplaceJoin(kept, MARKER + tail, p);
    MarkerIsKept(tail, p);
  }

  lemma {:induction false} CutHidesOnly(t: Text, p: string, secrets: seq<string>)
    requires Leftmost(t, p) && p in secrets && |p| >= 8
    ensures HidesOnly(t, secrets)
  {
    match t {
      case End(_) =>
      case Then(_, _, rest) => CutHidesOnly(rest, p, secrets);
    }
  }

  /** Masking one more secret hides more of what was kept, and nothing else. */
  lemma {:induction false} HideMore(t: Text, p: string, secrets: seq<string>) returns (more: Text)
    requires Maskable(p) && p in secrets && HidesOnly(t, secrets)
    ensures Raw(more) == Raw(t) && Shown(more) == ReplaceAll(Shown(t), p) && HidesOnly(more, secrets)
    decreases t
  {
    var cut := CutAtLeftmost(t.kept, p);
    ReplaceHidesLeftmost(cut, p);
    CutHidesOnly(cut, p, secrets);
    match t {
      case End(_) =>
        more := cut;
      case Then(kept, hidden, rest) =>
        var others := HideMore(rest, p, secrets);
        more := Chained(cut, hidden, others);
        ChainedText(cut, hidden, others);
        ChainedHides(cut, hidden, others, secrets);
        ReplaceAroundMarker(kept, Shown(rest), p);
    }
  }

  lemma {:induction false} HidesOnlyMore(t: Text, secrets: seq<string>, more: seq<string>)
    requires HidesOnly(t, secrets) && forall p :: p in secrets ==> p in more
    ensures HidesOnly(t, more)
  {
    if t.Then? { HidesOnlyMore(t.rest, secrets, more); }
  }

  /** The whole list: the stored text is the body with occurrences of listed secrets hidden, and
      all the text between them is kept as it was. */
  lemma {:induction false} OnlySecretsAreHidden(body: string, secrets: seq<string>) returns (t: Text)
    requires forall k :: 0 <= k < |secrets| && |secrets[k]| >= 8 ==> Maskable(secrets[k])
    ensures Raw(t) == body && Shown(t) == Masked(body, secrets) && HidesOnly(t, secrets)
    decreases |secrets|
  {
    if secrets == [] {
      t := End(body);
    } else {
      var n := |secrets| - 1;
      assert forall k :: 0 <= k < n ==> secrets[..n][k] == secrets[k];
      t := OnlySecretsAreHidden(body, secrets[..n]);
      HidesOnlyMore(t, secrets[..n], secrets);
      if |secrets[n]| >= 8 { t := HideMore(t, secrets[n], secrets); }
    }
  }

  // --- Which secrets those are -------------------------------------------------------------

  predicate NoBrackets(p: string) { '[' !in p && ']' !in p }

  /** No window of the marker that is eight characters long is free of brackets, but one. */
  lemma BracketFreeIsMaskable(p: string)
    requires |p| >= 8 && NoBrackets(p) && p != "redacted"
    ensures Maskable(p)
  {
    assert MARKER[0] == '[' && MARKER[9] == ']' && MARKER[1..9] == "redacted";
    forall j | 0 <= j < |p|
      ensures !Agree(p[j..], MARKER)
    {
      assert p[j..][0] == p[j] != MARKER[0];
    }
    forall i | 0 < i < |MARKER|
      ensures !Agree(MARKER[i..], p)
    {
      if |p| >= |MARKER| - i {
        assert MARKER[i..][9 - i] == ']' && p[9 - i] != ']';
      } else {
        assert i == 1 && |p| == 8;
        assert MARKER[1..][..8] == "redacted";
      }
    }
  }

  // --- Issued tokens -----------------------------------------------------------------------

  /** The alphabet of section 5 of RFC 4648. */
  predicate Base64Url(c: char) {
    'A' <= c <= 'Z' || 'a' <= c <= 'z' || '0' <= c <= '9' || c == '_' || c == '-'
  }

  predicate LooksLikeToken(value: string, kind: string) {
    var prefix := kind + "_";
    && |value| == |prefix| + 43 && value[..|prefix|] == prefix
    && forall i :: |prefix| <= i < |value| ==> Base64Url(value[i])
  }

  /** So every token the mail templates declare as a secret is masked. */
  lemma TokensAreMaskable(token: string, kind: string)
    requires kind in {"sess", "inv", "rst"} && LooksLikeToken(token, kind)
    ensures Maskable(token)
  {
    var prefix := kind + "_";
    assert forall i :: 0 <= i < |prefix| ==> token[i] == token[..|prefix|][i] == prefix[i];
    BracketFreeIsMaskable(token);
  }

  lemma RedactedSurvives(p: string)
    requires p == "redacted"
    ensures Contains(Masked(p, [p]), p)
  {
    assert [p][..0] == [] && Masked(p, [p][..0]) == p;
    assert IsPrefix(p, p) && p[|p|..] == "";
    assert ReplaceAll(p, p) == MARKER + ReplaceAll("", p) == MARKER;
    assert [p][0] == p && |p| == 8;
    assert Masked(p, [p]) == ReplaceAll(p, p);
    assert MARKER[1..9] == p;
    assert OccursAt(MARKER, p, 1);
  }

  ghost predicate CanSurvive(p: string) {
    exists body :: Contains(Masked(body, [p]), p)
  }

  /** Of the secrets without brackets, only the word the marker spells survives its masking. */
  lemma SurvivesIffMarkerSpellsIt(p: string)
    requires |p| >= 8 && NoBrackets(p)
    ensures CanSurvive(p) <==> p == "redacted"
  {
    if p == "redacted" {
      RedactedSurvives(p);
    } else {
      BracketFreeIsMaskable(p);
      forall body
        ensures !Contains(Masked(body, [p]), p)
      {
        NoSecretSurvives(body, [p], 0);
      }
    }
  }
}
