/** The HTTP server's query parser: `strtok_r` and `strchr` over one character buffer, cutting
    it up with NULs in place, and `strncpy` into the request's fixed parameter slots. */
module QueryParser {
  import opened QueryString

  const QUERY_SIZE: nat := 256

  /** The C string at index `p` of a buffer: everything before the next NUL. */
  function CStr(s: seq<char>, p: nat): string
    requires p <= |s|
    decreases |s| - p
  {
    if p == |s| || s[p] == NUL then [] else [s[p]] + CStr(s, p + 1)
  }

  lemma {:induction false} CStrShape(s: seq<char>, p: nat)
    requires p <= |s|
    ensures p + |CStr(s, p)| <= |s|
    ensures CStr(s, p) == s[p..p + |CStr(s, p)|]
    ensures NUL !in CStr(s, p)
    ensures p + |CStr(s, p)| < |s| ==> s[p + |CStr(s, p)|] == NUL
    decreases |s| - p
  {
    if p == |s| || s[p] == NUL {
    } else {
      CStrShape(s, p + 1);
    }
  }

  lemma {:induction false} CStrIs(s: seq<char>, p: nat, t: string)
    requires p + |t| < |s| && s[p..p + |t|] == t && NUL !in t && s[p + |t|] == NUL
    ensures CStr(s, p) == t
    decreases |t|
  {
    if t == [] {
    } else {
      assert s[p] == t[0];
      assert s[p + 1..p + 1 + |t[1..]|] == t[1..];
      CStrIs(s, p + 1, t[1..]);
    }
  }

  /** Dropping characters from the front moves the pointer. */
  lemma {:induction false} CStrDrop(s: seq<char>, p: nat, k: nat)
    requires p <= |s| && k <= |CStr(s, p)|
    ensures p + k <= |s| && CStr(s, p + k) == CStr(s, p)[k..]
    decreases k
  {
    if k == 0 {
      assert CStr(s, p)[0..] == CStr(s, p);
    } else {
      assert CStr(s, p) == [s[p]] + CStr(s, p + 1);
      CStrDrop(s, p + 1, k - 1);
      assert CStr(s, p)[k..] == CStr(s, p + 1)[k - 1..];
    }
  }

  /** Writing a NUL inside a string cuts it there. */
  lemma CStrCut(s: seq<char>, p: nat, k: nat)
    requires p <= |s| && k <= |CStr(s, p)| && p + k < |s|
    ensures CStr(s[p + k := NUL], p) == CStr(s, p)[..k]
  {
    CStrShape(s, p);
    var t := CStr(s, p);
    UpdateBehind(s, p, k, |t|);
    CStrIs(s[p + k := NUL], p, t[..k]);
  }

  lemma UpdateBehind(s: seq<char>, p: nat, k: nat, n: nat)
    requires k <= n && p + n <= |s| && p + k < |s|
    ensures s[p + k := NUL][p..p + k] == s[p..p + n][..k]
  {
    var u := s[p + k := NUL];
    assert forall i :: p <= i < p + k ==> u[i] == s[i];
    assert u[p..p + k] == s[p..p + k] == s[p..p + n][..k];
  }

  /** Changes before the pointer do not matter. */
  lemma {:induction false} CStrFrame(s: seq<char>, s': seq<char>, p: nat)
    requires p <= |s| == |s'| && s[p..] == s'[p..]
    ensures CStr(s, p) == CStr(s', p)
    decreases |s| - p
  {
    if p == |s| {
    } else {
      assert s[p] == s[p..][0] == s'[p];
      assert s[p + 1..] == s[p..][1..] == s'[p + 1..];
      CStrFrame(s, s', p + 1);
    }
  }

  // --- One slot of the request ---

  /** Raw contents of `char name[24]` and `char value[48]`. */
  datatype ParamSlot = ParamSlot(name: seq<char>, value: seq<char>)

  predicate SlotOk(p: ParamSlot) {
    && |p.name| == NAME_SIZE && |p.value| == VALUE_SIZE
    && p.name[NAME_SIZE - 1] == NUL && p.value[VALUE_SIZE - 1] == NUL
  }

  function Zeros(n: nat): (z: seq<char>)
    ensures |z| == n && forall i :: 0 <= i < n ==> z[i] == NUL
  {
    seq(n, _ => NUL)
  }

  function PairIn(p: ParamSlot): Pair {
    Pair(CStr(p.name, 0), CStr(p.value, 0))
  }

  /** `strncpy(dst, src, n)`: at most `n` characters, padded with NULs up to `n`. */
  function StrNCpy(dst: seq<char>, src: string, n: nat): (r: seq<char>)
    requires n <= |dst|
    ensures |r| == |dst| && r[n..] == dst[n..]
  {
    Cut(src, n) + Zeros(n - |Cut(src, n)|) + dst[n..]
  }

  /** Into a buffer whose last byte is NUL, `strncpy` of size minus one truncates cleanly. */
  lemma StrNCpyTruncates(dst: seq<char>, src: string)
    requires |dst| > 0 && dst[|dst| - 1] == NUL && NUL !in src
    ensures CStr(StrNCpy(dst, src, |dst| - 1), 0) == Cut(src, |dst| - 1)
    ensures CStr(StrNCpy(dst, src, |dst| - 1), 0) == src[..if |src| < |dst| - 1 then |src| else |dst| - 1]
    ensures StrNCpy(dst, src, |dst| - 1)[|dst| - 1] == NUL
  {
    var r, c := StrNCpy(dst, src, |dst| - 1), Cut(src, |dst| - 1);
    assert r[..|c|] == c;
    assert r[|dst| - 1] == dst[|dst| - 1..][0];
    CStrIs(r, 0, c);
  }

  // --- strtok_r ---

  /** What a call of `strtok_r` with its cursor at `start` does to the buffer: `None` at the end
      of the text, else the token's index and the new cursor. */
  ghost predicate Tokenized(old_: seq<char>, new_: seq<char>, start: nat, tok: int, save: nat)
    requires start <= |old_|
  {
    SkipAmpShortens(CStr(old_, start));
    var u := SkipAmp(CStr(old_, start));
    && |new_| == |old_|
    && save < |new_|
    && (tok < 0 <==> u == [])
    && (tok >= 0 ==>
          && tok + |Token(u)| <= save
          && CStr(new_, tok) == Token(u)
          && CStr(new_, save) == AfterToken(u))
  }

  method SkipDelimiters(buf: array<char>, start: nat) returns (i: nat)
    requires start < buf.Length && buf[buf.Length - 1] == NUL
    ensures i < buf.Length && CStr(buf[..], i) == SkipAmp(CStr(buf[..], start))
  {
    i := start;
    while buf[i] == '&'
      invariant start <= i < buf.Length
      invariant SkipAmp(CStr(buf[..], i)) == SkipAmp(CStr(buf[..], start))
      decreases buf.Length - i
    {
      assert CStr(buf[..], i) == ['&'] + CStr(buf[..], i + 1);
      i := i + 1;
    }
    CStrShape(buf[..], i);
  }

  lemma IndexInTail(s: seq<char>, p: nat, c: char)
    requires p < |s| && s[p] != NUL && s[p] != c
    ensures IndexOf(CStr(s, p), c) == 1 + IndexOf(CStr(s, p + 1), c)
  {
    assert CStr(s, p)[1..] == CStr(s, p + 1);
  }

  method FindEnd(buf: array<char>, tok: nat) returns (i: nat)
    requires tok < buf.Length && buf[buf.Length - 1] == NUL
    ensures i < buf.Length && i == tok + IndexOf(CStr(buf[..], tok), '&')
  {
    i := tok;
    ghost var s := buf[..];
    while buf[i] != '&' && buf[i] != NUL
      invariant tok <= i < buf.Length
      invariant i - tok + IndexOf(CStr(s, i), '&') == IndexOf(CStr(s, tok), '&')
      decreases buf.Length - i
    {
      IndexInTail(s, i, '&');
      i := i + 1;
    }
    IndexAtEnd(s, i, '&');
  }

  lemma IndexAtEnd(s: seq<char>, p: nat, c: char)
    requires p < |s| && c != NUL && (s[p] == NUL || s[p] == c)
    ensures IndexOf(CStr(s, p), c) == 0
  {
  }

  /** Cutting at the delimiter, `k` characters on, that ends the token at `tok`. */
  lemma TokenCut(s: seq<char>, tok: nat, k: nat, u: string)
    requires tok < |s| && u == CStr(s, tok) && k == IndexOf(u, '&') && k < |u|
    requires s[|s| - 1] == NUL && tok + k < |s| && s[tok + k] == '&'
    ensures tok + k + 1 < |s|
    ensures CStr(s[tok + k := NUL], tok) == Token(u)
    ensures CStr(s[tok + k := NUL], tok + k + 1) == AfterToken(u)
  {
    CStrCut(s, tok, k);
    CStrDrop(s, tok, k + 1);
    CStrFrame(s, s[tok + k := NUL], tok + k + 1);
  }

  /** The last token of the text ends at a NUL that is there already. */
  lemma TokenLast(s: seq<char>, tok: nat, i: nat)
    requires tok <= i < |s| && s[i] != '&' && i == tok + IndexOf(CStr(s, tok), '&')
    ensures
      var u := CStr(s, tok);
      Token(u) == u && AfterToken(u) == [] && CStr(s, i) == []
  {
    CStrShape(s, tok);
    assert i - tok == |CStr(s, tok)|;
  }

  /** From `s` to `t` the token at `tok` was ended, with the rest of the text left at `save`. */
  ghost predicate TokenEnded(s: seq<char>, t: seq<char>, tok: nat, save: nat)
    requires tok <= |s|
  {
    var u := CStr(s, tok);
    && |t| == |s| && tok + |Token(u)| <= save < |t|
    && CStr(t, tok) == Token(u) && CStr(t, save) == AfterToken(u)
  }

  lemma EndsAt(s: seq<char>, tok: nat, i: nat)
    requires tok <= i < |s| && s[|s| - 1] == NUL && i == tok + IndexOf(CStr(s, tok), '&')
    ensures s[i] == '&' ==> i + 1 < |s| && TokenEnded(s, s[i := NUL], tok, i + 1)
    ensures s[i] != '&' ==> TokenEnded(s, s, tok, i)
  {
    CStrShape(s, tok);
    if s[i] == '&' {
      TokenCut(s, tok, i - tok, CStr(s, tok));
      assert s[i := NUL] == s[tok + (i - tok) := NUL];
    } else {
      TokenLast(s, tok, i);
    }
  }

  /** End the token that starts at `tok`, over its delimiter if there is one. */
  method CutToken(buf: array<char>, tok: nat) returns (save: nat)
    requires tok < buf.Length && buf[buf.Length - 1] == NUL
    modifies buf
    ensures TokenEnded(old(buf[..]), buf[..], tok, save)
    ensures buf[buf.Length - 1] == NUL
  {
    ghost var s := buf[..];
    var i := FindEnd(buf, tok);
    EndsAt(s, tok, i);
    if buf[i] == '&' {
      buf[i] := NUL;
      save := i + 1;
      assert buf[..] == s[i := NUL];
    } else {
      save := i;
    }
  }

  /** `strtok_r(..., "&", &save)` with the cursor at `start`; -1 stands for the null pointer. */
  method StrTok(buf: array<char>, start: nat) returns (tok: int, save: nat)
    requires start < buf.Length && buf[buf.Length - 1] == NUL
    modifies buf
    ensures Tokenized(old(buf[..]), buf[..], start, tok, save)
    ensures buf[buf.Length - 1] == NUL
  {
    tok := SkipDelimiters(buf, start);
    if buf[tok] == NUL {
      return -1, tok;
    }
    save := CutToken(buf, tok);
  }

  // --- The request ---

  /** First match by name, or the empty string. */
  function Lookup(ps: seq<Pair>, name: string): string {
    if ps == [] then "" else if ps[0].name == name then ps[0].value else Lookup(ps[1..], name)
  }

  predicate Named(ps: seq<Pair>, name: string) {
    exists i :: 0 <= i < |ps| && ps[i].name == name
  }

  lemma {:induction false} LookupFirst(ps: seq<Pair>, name: string, i: nat)
    requires i < |ps| && ps[i].name == name
    requires forall j :: 0 <= j < i ==> ps[j].name != name
    ensures Lookup(ps, name) == ps[i].value
    decreases i
  {
    if i == 0 {
    } else {
      LookupFirst(ps[1..], name, i - 1);
    }
  }

  lemma {:induction false} LookupMissing(ps: seq<Pair>, name: string)
    requires !Named(ps, name)
    ensures Lookup(ps, name) == ""
    decreases |ps|
  {
    if ps == [] {
    } else {
      assert ps[0].name != name;
      assert forall i :: 0 <= i < |ps[1..]| ==> ps[1..][i] == ps[i + 1];
      LookupMissing(ps[1..], name);
    }
  }

  function PairsIn(slots: seq<ParamSlot>, n: nat): (ps: seq<Pair>)
    requires n <= |slots|
    ensures |ps| == n
    ensures forall i :: 0 <= i < n ==> ps[i] == PairIn(slots[i])
  {
    if n == 0 then [] else PairsIn(slots, n - 1) + [PairIn(slots[n - 1])]
  }

  lemma {:induction false} PairsInFrame(slots: seq<ParamSlot>, slots': seq<ParamSlot>, n: nat)
    requires n <= |slots| && n <= |slots'| && slots[..n] == slots'[..n]
    ensures PairsIn(slots, n) == PairsIn(slots', n)
    decreases n
  {
    if n == 0 {
    } else {
      assert slots[..n - 1] == slots[..n][..n - 1] == slots'[..n - 1];
      assert slots[n - 1] == slots[..n][n - 1] == slots'[n - 1];
      PairsInFrame(slots, slots', n - 1);
    }
  }

  /** Filling a slot from the two halves of a token. */
  function Fill(p: ParamSlot, name: string, value: string): ParamSlot
    requires SlotOk(p)
  {
    ParamSlot(StrNCpy(p.name, name, NAME_SIZE - 1), StrNCpy(p.value, value, VALUE_SIZE - 1))
  }

  lemma FillTruncates(p: ParamSlot, name: string, value: string)
    requires SlotOk(p) && NUL !in name && NUL !in value
    ensures SlotOk(Fill(p, name, value))
    ensures PairIn(Fill(p, name, value)) == Pair(Cut(name, NAME_SIZE - 1), Cut(value, VALUE_SIZE - 1))
  {
    StrNCpyTruncates(p.name, name);
    StrNCpyTruncates(p.value, value);
  }

  /** The two strings left by writing a NUL over the first `=` of a token. */
  lemma SplitInPlace(s: seq<char>, tok: nat, save: nat)
    requires tok <= save < |s| && tok + |CStr(s, tok)| <= save && '=' in CStr(s, tok)
    ensures
      var u, e := CStr(s, tok), IndexOf(CStr(s, tok), '=');
      && e < |u|
      && var s' := s[tok + e := NUL];
         && CStr(s', tok) == u[..e]
         && CStr(s', tok + e + 1) == u[e + 1..]
         && CStr(s', save) == CStr(s, save)
  {
    var u, e := CStr(s, tok), IndexOf(CStr(s, tok), '=');
    FoundInside(u, '=');
    CStrCut(s, tok, e);
    CStrDrop(s, tok, e + 1);
    CStrFrame(s, s[tok + e := NUL], tok + e + 1);
    CStrFrame(s, s[tok + e := NUL], save);
  }

  /** A token in hand: at `tok` in the buffer, with the rest of the text at `save`. */
  ghost predicate Holding(s: seq<char>, text: string, tok: int, save: nat) {
    SkipAmpShortens(text);
    var u := SkipAmp(text);
    && save < |s|
    && (tok < 0 <==> u == [])
    && (tok >= 0 ==> tok + |Token(u)| <= save && CStr(s, tok) == Token(u) && CStr(s, save) == AfterToken(u))
  }

  /** Stored pairs plus what the remaining text would still yield. */
  predicate Conserved(before: seq<Pair>, text: string, after: seq<Pair>, text': string)
    requires |before| <= MAX_PARAMS && |after| <= MAX_PARAMS
  {
    before + Tokens(text, MAX_PARAMS - |before|) == after + Tokens(text', MAX_PARAMS - |after|)
  }

  /** What one token contributes. */
  function Yield(u: string): (ps: seq<Pair>)
    ensures |ps| <= 1
  {
    if '=' in Token(u) then [PairOf(Token(u))] else []
  }

  lemma Regroup(a: seq<Pair>, b: seq<Pair>, c: seq<Pair>)
    ensures a + (b + c) == (a + b) + c
  {
  }

  lemma TokensEnd(text: string, room: nat)
    ensures SkipAmp(text) == [] || room == 0 ==> Tokens(text, room) == []
  {
  }

  /** `text` yields `stored` first and then what `rest` yields. */
  predicate Continues(text: string, room: nat, stored: seq<Pair>, rest: string) {
    |stored| <= room && Tokens(text, room) == stored + Tokens(rest, room - |stored|)
  }

  lemma AfterIsShorter(text: string, u: string)
    requires u == SkipAmp(text) && u != []
    ensures |AfterToken(u)| < |text|
  {
    SkipAmpShortens(text);
  }

  lemma NothingFirst(rest: seq<Pair>)
    ensures [] + rest == rest
  {
  }

  lemma TakesToken(text: string, u: string, room: nat)
    requires u == SkipAmp(text) && u != [] && room > 0 && '=' in Token(u)
    ensures Tokens(text, room) == [PairOf(Token(u))] + Tokens(AfterToken(u), room - 1)
  {
  }

  lemma SkipsToken(text: string, u: string, room: nat)
    requires u == SkipAmp(text) && u != [] && room > 0 && '=' !in Token(u)
    ensures Tokens(text, room) == Tokens(AfterToken(u), room)
  {
  }

  lemma TokensStep(text: string, u: string, room: nat)
    requires u == SkipAmp(text) && u != [] && room > 0
    ensures Continues(text, room, Yield(u), AfterToken(u))
  {
    if '=' in Token(u) {
      TakesToken(text, u, room);
      assert Yield(u) == [PairOf(Token(u))];
    } else {
      SkipsToken(text, u, room);
      NothingFirst(Tokens(AfterToken(u), room));
      assert Yield(u) == [];
    }
  }

  lemma Conserve(before: seq<Pair>, stored: seq<Pair>, text: string, rest: string)
    requires |before| <= MAX_PARAMS && Continues(text, MAX_PARAMS - |before|, stored, rest)
    ensures Conserved(before, text, before + stored, rest)
  {
    Regroup(before, stored, Tokens(rest, MAX_PARAMS - |before| - |stored|));
    assert MAX_PARAMS - |before + stored| == MAX_PARAMS - |before| - |stored|;
  }

  lemma StepConserves(before: seq<Pair>, text: string, u: string)
    requires |before| < MAX_PARAMS && u == SkipAmp(text) && u != []
    ensures Conserved(before, text, before + Yield(u), AfterToken(u))
  {
    TokensStep(text, u, MAX_PARAMS - |before|);
    Conserve(before, Yield(u), text, AfterToken(u));
  }

  /** What parsing a query text yields: nothing if it does not fit the buffer. */
  function Parsed(query: string): seq<Pair> {
    if |query| < QUERY_SIZE then Params(query) else []
  }

  /** What the parser keeps of a printed list: the first ten pairs, each as far as it fits. */
  function Remembered(ps: seq<Pair>): seq<Pair> {
    if |ps| <= 10 then AllKept(ps) else AllKept(ps)[..10]
  }

  /** Printing a list of pairs and parsing it: nothing if the text is longer than 255 characters,
      else the first ten pairs as far as they fit; each lookup by name gives the first match. */
  lemma ParsesBack(ps: seq<Pair>, name: string)
    requires AllPrintable(ps)
    ensures NUL !in Print(ps)
    ensures Parsed(Print(ps)) == if |Print(ps)| <= 255 then Remembered(ps) else []
    ensures |Print(ps)| <= 255 && !Named(Remembered(ps), name) ==> Lookup(Parsed(Print(ps)), name) == ""
    ensures forall i :: |Print(ps)| <= 255 && FirstNamed(Remembered(ps), name, i) ==>
              Lookup(Parsed(Print(ps)), name) == Remembered(ps)[i].value
  {
    RoundTrip(ps);
    if !Named(Remembered(ps), name) {
      LookupMissing(Remembered(ps), name);
    }
    forall i | FirstNamed(Remembered(ps), name, i) ensures Lookup(Remembered(ps), name) == Remembered(ps)[i].value {
      LookupFirst(Remembered(ps), name, i);
    }
  }

  /** Entry `i` is the first one with the name. */
  predicate FirstNamed(ps: seq<Pair>, name: string, i: int) {
    0 <= i < |ps| && ps[i].name == name && forall j :: 0 <= j < i ==> ps[j].name != name
  }

  lemma ParamsAreTokens(query: string)
    ensures Params(query) == Tokens(query, MAX_PARAMS)
    ensures query == "" ==> Params(query) == []
  {
    TokensAreFiltered(query, MAX_PARAMS);
    if query == "" {
      NothingLeft(query, MAX_PARAMS);
    }
  }

  lemma HoldsQuery(s: seq<char>, query: string)
    requires |query| < |s| && NUL !in query
    requires forall i :: 0 <= i < |s| ==> s[i] == if i < |query| then query[i] else NUL
    ensures CStr(s, 0) == query
  {
    assert s[0..|query|] == query;
    CStrIs(s, 0, query);
  }

  class HttpRequest {
    const params: array<ParamSlot>
    var paramCount: nat

    ghost predicate Valid()
      reads this, params
    {
      && params.Length == MAX_PARAMS && paramCount <= MAX_PARAMS
      && forall i :: 0 <= i < MAX_PARAMS ==> SlotOk(params[i])
    }

    ghost function Pairs(): seq<Pair>
      requires Valid()
      reads this, params
    {
      PairsIn(params[..], paramCount)
    }

    constructor ()
      ensures Valid() && fresh(params) && Pairs() == []
    {
      params := new ParamSlot[MAX_PARAMS](_ => ParamSlot(Zeros(NAME_SIZE), Zeros(VALUE_SIZE)));
      paramCount := 0;
    }

    method HasParam(name: string) returns (r: bool)
      requires Valid()
      ensures r == Named(Pairs(), name)
    {
      for idx := 0 to paramCount
        invariant forall j :: 0 <= j < idx ==> Pairs()[j].name != name
      {
        if CStr(params[idx].name, 0) == name {
          assert Pairs()[idx].name == name;
          return true;
        }
      }
      return false;
    }

    method Param(name: string) returns (value: string)
      requires Valid()
      ensures value == Lookup(Pairs(), name)
    {
      for idx := 0 to paramCount
        invariant forall j :: 0 <= j < idx ==> Pairs()[j].name != name
      {
        if CStr(params[idx].name, 0) == name {
          assert Pairs()[idx].name == name;
          LookupFirst(Pairs(), name, idx);
          return CStr(params[idx].value, 0);
        }
      }
      LookupMissing(Pairs(), name);
      return "";
    }

    /** Store one parameter in the next free slot. */
    method Append(name: string, value: string)
      requires Valid() && paramCount < MAX_PARAMS && NUL !in name && NUL !in value
      modifies this, params
      ensures Valid()
      ensures Pairs() == old(Pairs()) + [Pair(Cut(name, NAME_SIZE - 1), Cut(value, VALUE_SIZE - 1))]
    {
      ghost var was := params[..];
      FillTruncates(params[paramCount], name, value);
      params[paramCount] := Fill(params[paramCount], name, value);
      PairsInFrame(was, params[..], paramCount);
      paramCount := paramCount + 1;
    }

    /** The loop body: split the token at its first `=` and store the two halves. */
    method StoreToken(buf: array<char>, token: nat, saveptr: nat, ghost text: string)
      requires Valid() && paramCount < MAX_PARAMS && buf.Length > 0 && buf[buf.Length - 1] == NUL
      requires Holding(buf[..], text, token, saveptr)
      modifies this, params, buf
      ensures Valid() && buf[buf.Length - 1] == NUL
      ensures CStr(buf[..], saveptr) == AfterToken(SkipAmp(text))
      ensures Pairs() == old(Pairs()) + Yield(SkipAmp(text))
    {
      ghost var s := buf[..];
      CStrShape(s, token);
      FoundInside(CStr(s, token), '=');
      var eq := IndexOf(CStr(buf[..], token), '=');
      if eq < |CStr(buf[..], token)| {
        SplitInPlace(s, token, saveptr);
        buf[token + eq] := NUL;
        assert buf[..] == s[token + eq := NUL];
        CStrShape(buf[..], token);
        CStrShape(buf[..], token + eq + 1);
        Append(CStr(buf[..], token), CStr(buf[..], token + eq + 1));
      }
    }

    /** One turn of the loop: store the token in hand and fetch the next one. What is stored
        plus what is still to come does not change. */
    method Advance(buf: array<char>, token: nat, saveptr: nat, ghost text: string)
      returns (token': int, saveptr': nat, ghost text': string)
      requires Valid() && paramCount < MAX_PARAMS && buf.Length > 0 && buf[buf.Length - 1] == NUL
      requires Holding(buf[..], text, token, saveptr)
      modifies this, params, buf
      ensures Valid() && buf[buf.Length - 1] == NUL
      ensures Holding(buf[..], text', token', saveptr') && |text'| < |text|
      ensures Conserved(old(Pairs()), text, Pairs(), text')
    {
      text' := AfterToken(SkipAmp(text));
      ghost var was := Pairs();
      StoreToken(buf, token, saveptr, text);
      AfterIsShorter(text, SkipAmp(text));
      StepConserves(was, text, SkipAmp(text));
      token', saveptr' := StrTok(buf, saveptr);
    }

    /** The token loop over a buffer that holds `query`. */
    method Tokenize(buf: array<char>, ghost query: string)
      requires Valid() && paramCount == 0
      requires buf.Length > 0 && buf[buf.Length - 1] == NUL && CStr(buf[..], 0) == query
      modifies this, params, buf
      ensures Valid() && Pairs() == Tokens(query, MAX_PARAMS)
    {
      ghost var text := query;
      var token, saveptr := StrTok(buf, 0);
      while token >= 0 && paramCount < MAX_PARAMS
        invariant Valid() && buf[buf.Length - 1] == NUL
        invariant Holding(buf[..], text, token, saveptr)
        invariant Conserved([], query, Pairs(), text)
        decreases |text|
      {
        token, saveptr, text := Advance(buf, token, saveptr, text);
      }
      TokensEnd(text, MAX_PARAMS - paramCount);
      assert [] + Tokens(query, MAX_PARAMS) == Tokens(query, MAX_PARAMS) && Pairs() + [] == Pairs();
    }

    /** `query` is the URL's query text. It is ignored when it does not fit the buffer. */
    method ParseQueryParams(query: string)
      requires Valid() && NUL !in query
      modifies this, params
      ensures Valid()
      ensures Pairs() == Parsed(query)
    {
      paramCount := 0;
      ParamsAreTokens(query);
      if |query| == 0 {
        return;
      }
      if |query| >= QUERY_SIZE {
        return;
      }
      var buf := new char[QUERY_SIZE](i => if 0 <= i < |query| then query[i] else NUL);
      HoldsQuery(buf[..], query);
      Tokenize(buf, query);
    }
  }
}
