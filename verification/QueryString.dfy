/** Query strings as text: the segments between `&`, and what the parser makes of them. This is
    the reference against which the in-place tokenizer is proved. */
module QueryString {

  const NUL: char := '\0'
  const MAX_PARAMS: nat := 10
  const NAME_SIZE: nat := 24
  const VALUE_SIZE: nat := 48

  datatype Pair = Pair(name: string, value: string)

  function IndexOf(s: string, c: char): (i: nat)
    ensures i <= |s|
    ensures i < |s| ==> s[i] == c
    ensures forall j :: 0 <= j < i ==> s[j] != c
  {
    if s == [] || s[0] == c then 0 else 1 + IndexOf(s[1..], c)
  }

  function Cut(s: string, n: nat): string {
    if |s| <= n then s else s[..n]
  }

  // --- The reference: split, keep what bears a `=`, take the first ten ---

  /** All segments, empty ones included; one more than there are separators. */
  function Split(t: string): seq<string>
    decreases |t|
  {
    var i := IndexOf(t, '&');
    if i == |t| then [t] else [t[..i]] + Split(t[i + 1..])
  }

  function Bearing(segments: seq<string>): seq<string> {
    if segments == [] then []
    else (if '=' in segments[0] then [segments[0]] else []) + Bearing(segments[1..])
  }

  function PairOf(segment: string): Pair
    requires '=' in segment
  {
    var e := IndexOf(segment, '=');
    FoundInside(segment, '=');
    Pair(Cut(segment[..e], NAME_SIZE - 1), Cut(segment[e + 1..], VALUE_SIZE - 1))
  }

  /** A stored name or value is the beginning of what stood before or after the first `=`: all of
      it, or as much as fits. */
  lemma PairIsPrefixes(segment: string)
    requires '=' in segment
    ensures
      var e, p := IndexOf(segment, '='), PairOf(segment);
      && segment[e] == '=' && '=' !in segment[..e]
      && |p.name| == (if e < 23 then e else 23) && p.name == segment[..|p.name|]
      && |p.value| == (if |segment| - e - 1 < 47 then |segment| - e - 1 else 47)
      && p.value == segment[e + 1..e + 1 + |p.value|]
  {
    FoundInside(segment, '=');
    var e := IndexOf(segment, '=');
    assert segment[..e][..|PairOf(segment).name|] == segment[..|PairOf(segment).name|];
    assert segment[e + 1..][..|PairOf(segment).value|] == segment[e + 1..e + 1 + |PairOf(segment).value|];
  }

  lemma FoundInside(s: string, c: char)
    ensures IndexOf(s, c) < |s| <==> c in s
  {
  }

  predicate AllBear(segments: seq<string>) {
    forall i :: 0 <= i < |segments| ==> '=' in segments[i]
  }

  function PairsOf(segments: seq<string>): (ps: seq<Pair>)
    requires AllBear(segments)
    ensures |ps| == |segments|
  {
    if segments == [] then [] else [PairOf(segments[0])] + PairsOf(segments[1..])
  }

  lemma {:induction false} BearingBear(segments: seq<string>)
    ensures AllBear(Bearing(segments))
    decreases |segments|
  {
    if segments == [] {
    } else {
      BearingBear(segments[1..]);
    }
  }

  function FirstOf(segments: seq<string>, n: nat): seq<string> {
    if |segments| <= n then segments else segments[..n]
  }

  /** The parameters of a query string. */
  function Params(t: string): seq<Pair> {
    BearingBear(Split(t));
    PairsOf(FirstOf(Bearing(Split(t)), MAX_PARAMS))
  }

  // --- The same, one token at a time, as strtok_r delivers them ---

  function SkipAmp(t: string): string {
    if t != [] && t[0] == '&' then SkipAmp(t[1..]) else t
  }

  lemma {:induction false} SkipAmpShortens(t: string)
    ensures |SkipAmp(t)| <= |t|
    ensures SkipAmp(t) == [] || SkipAmp(t)[0] != '&'
    ensures SkipAmp(t) == t[|t| - |SkipAmp(t)|..]
    decreases |t|
  {
    if t == [] || t[0] != '&' {
    } else {
      SkipAmpShortens(t[1..]);
    }
  }

  function Token(t: string): string {
    t[..IndexOf(t, '&')]
  }

  function AfterToken(t: string): string {
    var i := IndexOf(t, '&');
    if i == |t| then [] else t[i + 1..]
  }

  /** At most `room` parameters from the remaining text `t`. */
  function Tokens(t: string, room: nat): seq<Pair>
    decreases |t|
  {
    SkipAmpShortens(t);
    var u := SkipAmp(t);
    if room == 0 || u == [] then []
    else if '=' in Token(u) then [PairOf(Token(u))] + Tokens(AfterToken(u), room - 1)
    else Tokens(AfterToken(u), room)
  }

  lemma {:induction false} SkippingKeepsBearing(t: string)
    ensures Bearing(Split(SkipAmp(t))) == Bearing(Split(t))
    decreases |t|
  {
    if t == [] || t[0] != '&' {
    } else {
      SkippingKeepsBearing(t[1..]);
      assert Split(t) == [""] + Split(t[1..]);
    }
  }

  lemma PairsCons(segment: string, rest: seq<string>)
    requires '=' in segment && AllBear(rest)
    ensures AllBear([segment] + rest)
    ensures PairsOf([segment] + rest) == [PairOf(segment)] + PairsOf(rest)
  {
    assert ([segment] + rest)[1..] == rest;
  }

  lemma FirstCons(segment: string, rest: seq<string>, room: nat)
    requires room > 0
    ensures FirstOf([segment] + rest, room) == [segment] + FirstOf(rest, room - 1)
  {
  }

  lemma NothingLeft(t: string, room: nat)
    requires SkipAmp(t) == []
    ensures Tokens(t, room) == [] && Bearing(Split(t)) == []
  {
    SkippingKeepsBearing(t);
    assert Split("") == [""];
    assert Bearing([""]) == [];
  }

  /** What is still to come once the first token of `t` is taken off. */
  lemma BearingAfter(t: string, u: string)
    requires u == SkipAmp(t) && u != []
    ensures Bearing(Split(t)) == (if '=' in Token(u) then [Token(u)] else []) + Bearing(Split(AfterToken(u)))
  {
    SkippingKeepsBearing(t);
    SplitToken(u);
  }

  lemma TakeToken(t: string, u: string, room: nat)
    requires u == SkipAmp(t) && u != [] && room > 0 && '=' in Token(u)
    requires AllBear(FirstOf(Bearing(Split(AfterToken(u))), room - 1))
    requires Tokens(AfterToken(u), room - 1) == PairsOf(FirstOf(Bearing(Split(AfterToken(u))), room - 1))
    ensures AllBear(FirstOf(Bearing(Split(t)), room))
    ensures Tokens(t, room) == PairsOf(FirstOf(Bearing(Split(t)), room))
  {
    var rest := Bearing(Split(AfterToken(u)));
    BearingAfter(t, u);
    FirstCons(Token(u), rest, room);
    PairsCons(Token(u), FirstOf(rest, room - 1));
  }

  /** Tokenizing is splitting and filtering. */
  lemma {:induction false} TokensAreFiltered(t: string, room: nat)
    ensures AllBear(FirstOf(Bearing(Split(t)), room))
    ensures Tokens(t, room) == PairsOf(FirstOf(Bearing(Split(t)), room))
    decreases |t|
  {
    BearingBear(Split(t));
    SkipAmpShortens(t);
    var u := SkipAmp(t);
    if u == [] {
      NothingLeft(t, room);
    } else if room == 0 {
      assert Tokens(t, room) == [];
    } else if '=' in Token(u) {
      TokensAreFiltered(AfterToken(u), room - 1);
      TakeToken(t, u, room);
    } else {
      TokensAreFiltered(AfterToken(u), room);
      BearingAfter(t, u);
      assert Tokens(t, room) == Tokens(AfterToken(u), room);
      assert Bearing(Split(t)) == Bearing(Split(AfterToken(u)));
    }
  }

  lemma SplitToken(u: string)
    requires u != []
    ensures Bearing(Split(u)) == (if '=' in Token(u) then [Token(u)] else []) + Bearing(Split(AfterToken(u)))
  {
    var i := IndexOf(u, '&');
    if i == |u| {
      assert u[..i] == u;
      assert Split(u) == [u];
      assert Split(u)[1..] == [];
      assert Split("") == [""];
      assert Bearing([""]) == [];
    } else {
      assert Split(u)[1..] == Split(u[i + 1..]);
    }
  }

  // --- Printing ---

  predicate Printable(p: Pair) {
    '&' !in p.name && '=' !in p.name && NUL !in p.name && '&' !in p.value && NUL !in p.value
  }

  predicate AllPrintable(ps: seq<Pair>) {
    forall i :: 0 <= i < |ps| ==> Printable(ps[i])
  }

  /** What a parameter slot has room for: 23 characters of the name and 47 of the value. */
  function Kept(p: Pair): (k: Pair)
    ensures |p.name| <= 23 && |p.value| <= 47 ==> k == p
  {
    Pair(if |p.name| <= 23 then p.name else p.name[..23], if |p.value| <= 47 then p.value else p.value[..47])
  }

  function AllKept(ps: seq<Pair>): (ks: seq<Pair>)
    ensures |ks| == |ps| && forall i :: 0 <= i < |ps| ==> ks[i] == Kept(ps[i])
  {
    if ps == [] then [] else [Kept(ps[0])] + AllKept(ps[1..])
  }

  function Segment(p: Pair): string {
    p.name + ['='] + p.value
  }

  function Print(ps: seq<Pair>): string {
    if ps == [] then []
    else if |ps| == 1 then Segment(ps[0])
    else Segment(ps[0]) + ['&'] + Print(ps[1..])
  }

  lemma IndexOfIn(s: string, c: char, i: nat)
    requires i < |s| && s[i] == c && c !in s[..i]
    ensures IndexOf(s, c) == i
  {
    assert forall j :: 0 <= j < i ==> s[j] == s[..i][j];
  }

  lemma SegmentReadsBack(p: Pair)
    requires Printable(p)
    ensures '=' in Segment(p) && '&' !in Segment(p) && NUL !in Segment(p)
    ensures PairOf(Segment(p)) == Kept(p)
  {
    var s := Segment(p);
    assert s[|p.name|] == '=' && s[..|p.name|] == p.name && s[|p.name| + 1..] == p.value;
    IndexOfIn(s, '=', |p.name|);
  }

  lemma SplitOne(s: string)
    requires '&' !in s
    ensures Split(s) == [s]
  {
    FoundInside(s, '&');
  }

  lemma SplitFirst(s: string, t: string)
    requires '&' !in s
    ensures Split(s + ['&'] + t) == [s] + Split(t)
  {
    var u := s + ['&'] + t;
    assert u[|s|] == '&' && u[..|s|] == s && u[|s| + 1..] == t;
    IndexOfIn(u, '&', |s|);
  }

  lemma {:induction false} PrintSplits(ps: seq<Pair>)
    requires ps != [] && AllPrintable(ps)
    ensures AllBear(Split(Print(ps))) && PairsOf(Split(Print(ps))) == AllKept(ps)
    decreases |ps|
  {
    var s := Segment(ps[0]);
    SegmentReadsBack(ps[0]);
    if |ps| == 1 {
      SplitOne(s);
      PairsCons(s, []);
      assert [s] + [] == [s];
    } else {
      PrintSplits(ps[1..]);
      SplitFirst(s, Print(ps[1..]));
      PairsCons(s, Split(Print(ps[1..])));
    }
  }

  lemma {:induction false} BearingAll(segments: seq<string>)
    requires AllBear(segments)
    ensures Bearing(segments) == segments
    decreases |segments|
  {
    if segments == [] {
    } else {
      BearingAll(segments[1..]);
    }
  }

  lemma {:induction false} PrintHasNoNul(ps: seq<Pair>)
    requires AllPrintable(ps)
    ensures NUL !in Print(ps)
    decreases |ps|
  {
    if ps == [] {
    } else {
      SegmentReadsBack(ps[0]);
      PrintHasNoNul(ps[1..]);
    }
  }

  lemma {:induction false} PairsOfFirst(segments: seq<string>, n: nat)
    requires AllBear(segments)
    ensures AllBear(FirstOf(segments, n))
    ensures PairsOf(FirstOf(segments, n)) == if |segments| <= n then PairsOf(segments) else PairsOf(segments)[..n]
    decreases |segments|
  {
    if |segments| <= n || n == 0 {
    } else {
      PairsOfFirst(segments[1..], n - 1);
      assert segments[..n] == [segments[0]] + segments[1..][..n - 1];
      PairsCons(segments[0], segments[1..][..n - 1]);
    }
  }

  /** Printed parameters are parsed back: the first ten of them, each as far as it fits. */
  lemma RoundTrip(ps: seq<Pair>)
    requires AllPrintable(ps)
    ensures NUL !in Print(ps)
    ensures Params(Print(ps)) == if |ps| <= 10 then AllKept(ps) else AllKept(ps)[..10]
    ensures |ps| <= 10 && (forall i :: 0 <= i < |ps| ==> |ps[i].name| <= 23 && |ps[i].value| <= 47) ==>
              Params(Print(ps)) == ps
  {
    PrintHasNoNul(ps);
    if ps == [] {
      assert Split("") == [""];
      assert Bearing([""]) == [];
    } else {
      PrintSplits(ps);
      BearingAll(Split(Print(ps)));
      PairsOfFirst(Split(Print(ps)), MAX_PARAMS);
    }
  }
}
