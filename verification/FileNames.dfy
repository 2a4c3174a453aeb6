/** The output file names of the file writer (`FileWriterModule::FileGenerator`). */
module FileNames {
  import opened Arithmetic
  import opened Sequences

  datatype Token = Literal(c: char) | Argument(c: char)

  /** How both scanners read a pattern: '%' and the character after it are an argument, a final '%' is itself. */
  function Tokens(pattern: string): seq<Token> {
    if pattern == [] then []
    else if pattern[0] == '%' && |pattern| > 1 then [Argument(pattern[1])] + Tokens(pattern[2..])
    else [Literal(pattern[0])] + Tokens(pattern[1..])
  }

  /** The pattern from which the tokens were read. */
  function Spelled(ts: seq<Token>): string {
    if ts == [] then []
    else (if ts[0].Argument? then ['%', ts[0].c] else [ts[0].c]) + Spelled(ts[1..])
  }

  /** A '%' begins an argument unless it is the last character. */
  predicate Strict(ts: seq<Token>) {
    forall i :: 0 <= i < |ts| - 1 ==> ts[i] != Literal('%')
  }

  /** The tokens of a pattern are the only ones that spell it in this way. */
  lemma {:induction false} TokensIff(pattern: string, ts: seq<Token>)
    ensures ts == Tokens(pattern) <==> Spelled(ts) == pattern && Strict(ts)
    decreases |pattern|
  {
    if ts != [] {
      var t, rest := ts[0], ts[1..];
      var first := if t.Argument? then ['%', t.c] else [t.c];
      StrictRest(ts);
      assert ts == [t] + rest;
      if |first| <= |pattern| && first == pattern[..|first|] {
        TokensIff(pattern[|first|..], rest);
        assert pattern == first + pattern[|first|..];
        FirstToken(pattern, t, rest);
      }
    }
    SpelledNone(ts);
  }

  lemma SpelledNone(ts: seq<Token>)
    ensures Spelled(ts) == [] <==> ts == []
  {
  }

  lemma StrictRest(ts: seq<Token>)
    requires ts != []
    ensures Strict(ts) <==> Strict(ts[1..]) && (ts[0] == Literal('%') ==> |ts| == 1)
  {
    if Strict(ts[1..]) {
      forall i | 1 <= i < |ts| - 1 ensures ts[i] != Literal('%') {
        assert ts[1..][i - 1] == ts[i];
      }
    }
  }

  lemma FirstToken(pattern: string, t: Token, rest: seq<Token>)
    requires var n := if t.Argument? then 2 else 1;
             n <= |pattern| && pattern[..n] == (if t.Argument? then ['%', t.c] else [t.c])
    ensures var n := if t.Argument? then 2 else 1;
            Tokens(pattern) == [t] + rest <==> rest == Tokens(pattern[n..]) && (t == Literal('%') ==> |pattern| == 1)
  {
    var head := TokensHead(pattern);
    hide Tokens;
    if pattern[0] == '%' && |pattern| > 1 {
      SameHead(head, Tokens(pattern[2..]), t, rest);
    } else {
      SameHead(head, Tokens(pattern[1..]), t, rest);
    }
    if t.Argument? {
      assert pattern[..2][0] == '%' && pattern[..2][1] == t.c;
    } else {
      assert pattern[..1][0] == t.c;
    }
  }

  lemma TokensHead(pattern: string) returns (head: Token)
    requires pattern != []
    ensures if pattern[0] == '%' && |pattern| > 1
            then head == Argument(pattern[1]) && Tokens(pattern) == [head] + Tokens(pattern[2..])
            else head == Literal(pattern[0]) && Tokens(pattern) == [head] + Tokens(pattern[1..])
  {
    head := if pattern[0] == '%' && |pattern| > 1 then Argument(pattern[1]) else Literal(pattern[0]);
  }

  lemma SameHead(a: Token, s: seq<Token>, b: Token, t: seq<Token>)
    ensures [a] + s == [b] + t <==> a == b && s == t
  {
    assert ([a] + s)[0] == a && ([b] + t)[0] == b && ([a] + s)[1..] == s && ([b] + t)[1..] == t;
  }

  predicate Known(c: char) {
    c == 'D' || c == 'n' || c == 'c' || c == 'r'
  }

  predicate AllKnown(ts: seq<Token>) {
    forall t <- ts :: t.Argument? ==> Known(t.c)
  }

  function One(s: Token, t: Token): nat {
    if s == t then 1 else 0
  }

  lemma {:induction false} CountPrefix(ts: seq<Token>, i: nat, t: Token)
    requires i < |ts|
    ensures Count(ts[..i + 1], t) == Count(ts[..i], t) + One(ts[i], t)
    ensures Count(ts[..i + 1], t) <= Count(ts, t)
    decreases |ts| - i
  {
    assert ts[..i + 1][..i] == ts[..i];
    if i + 1 == |ts| {
      assert ts[..i + 1] == ts;
    } else {
      CountPrefix(ts, i + 1, t);
    }
  }

  // --- decimal numbers ---

  function Decimal(n: nat): (s: string)
    ensures s != []
  {
    if n < 10 then [Digit(n)] else Decimal(n / 10) + [Digit(n % 10)]
  }

  function Digit(d: nat): char
    requires d < 10
  {
    '0' + d as char
  }

  lemma {:induction false} DecimalLonger(m: nat, n: nat)
    requires m <= n
    ensures |Decimal(m)| <= |Decimal(n)|
  {
    if n >= 10 && m >= 10 {
      DecimalLonger(m / 10, n / 10);
    }
  }

  lemma {:induction false} DecimalInjective(m: nat, n: nat)
    requires Decimal(m) == Decimal(n)
    ensures m == n
  {
    var a, b := Decimal(m), Decimal(n);
    if m >= 10 && n >= 10 {
      assert a[..|a| - 1] == Decimal(m / 10) && b[..|b| - 1] == Decimal(n / 10);
      assert a[|a| - 1] == Digit(m % 10) && b[|b| - 1] == Digit(n % 10);
      DecimalInjective(m / 10, n / 10);
    }
  }

  // --- expansion of a pattern ---

  // The parts of a generator that never change, and the clock: what its i-th reading of the date gives.
  // `modulus` is 2 to the number of bits of the unsigned file number.
  datatype Env = Env(chid: nat, run: nat, modulus: Positive, clock: nat -> string)

  type Positive = n: nat | n > 0 witness 1

  const N := Argument('n')
  const D := Argument('D')

  /** The value of an unsigned counter after `n` increments. */
  function Wrap(n: nat, modulus: Positive): (w: nat)
    ensures n < modulus ==> w == n
  {
    if n < modulus then n else Wrap(n - modulus, modulus)
  }

  lemma {:induction false} WrapStep(n: nat, modulus: Positive)
    ensures Wrap(n + 1, modulus) == if Wrap(n, modulus) + 1 == modulus then 0 else Wrap(n, modulus) + 1
  {
    if n >= modulus {
      WrapStep(n - modulus, modulus);
    }
  }

  lemma {:induction false} WrapMultiple(x: nat, wraps: nat, modulus: Positive)
    ensures Wrap(x + Times(wraps, modulus), modulus) == Wrap(x, modulus)
  {
    if wraps > 0 {
      WrapMultiple(x, wraps - 1, modulus);
    }
  }

  function Piece(t: Token, env: Env, filenum: nat, looks: nat): string
    requires t.Argument? ==> Known(t.c)
  {
    if t == D then env.clock(looks)
    else if t == N then Decimal(Wrap(filenum, env.modulus))
    else if t == Argument('c') then Decimal(env.chid)
    else if t == Argument('r') then Decimal(env.run)
    else [t.c]
  }

  /** What each token expands to when `filenum` file numbers have been used and the clock was read `looks` times. */
  function Pieces(ts: seq<Token>, env: Env, filenum: nat, looks: nat): seq<string>
    requires AllKnown(ts)
  {
    if ts == [] then []
    else
      var front, t := ts[..|ts| - 1], ts[|ts| - 1];
      Pieces(front, env, filenum, looks) + [Piece(t, env, filenum + Count(front, N), looks + Count(front, D))]
  }

  lemma {:induction false} PieceAt(ts: seq<Token>, i: nat, env: Env, filenum: nat, looks: nat)
    requires AllKnown(ts) && i < |ts|
    ensures |Pieces(ts, env, filenum, looks)| == |ts|
    ensures Pieces(ts, env, filenum, looks)[i]
         == Piece(ts[i], env, filenum + Count(ts[..i], N), looks + Count(ts[..i], D))
  {
    var front := ts[..|ts| - 1];
    assert front[..i] == ts[..i];
    if i < |front| {
      PieceAt(front, i, env, filenum, looks);
    } else if i > 0 {
      PieceAt(front, i - 1, env, filenum, looks);
    }
  }

  function Expand(ts: seq<Token>, env: Env, filenum: nat, looks: nat): string
    requires AllKnown(ts)
  {
    Flat(Pieces(ts, env, filenum, looks))
  }

  /** The k-th name of a generator: every earlier call used one number per "%n" and one clock reading per "%D". */
  function Name(ts: seq<Token>, env: Env, k: nat): string
    requires AllKnown(ts)
  {
    Expand(ts, env, Times(k, Count(ts, N)), Times(k, Count(ts, D)))
  }

  /** The texts of a name, token by token: which file number and which reading of the clock each field shows. */
  lemma NameText(ts: seq<Token>, env: Env, k: nat) returns (pieces: seq<string>)
    requires AllKnown(ts)
    ensures |pieces| == |ts| && Name(ts, env, k) == Flat(pieces)
    ensures forall i :: 0 <= i < |ts| ==>
              pieces[i] == Piece(ts[i], env, Times(k, Count(ts, Argument('n'))) + Count(ts[..i], Argument('n')),
                                 Times(k, Count(ts, Argument('D'))) + Count(ts[..i], Argument('D')))
  {
    hide Pieces, Piece, Count, Decimal, Wrap, Times, Flat;
    var m, d := Times(k, Count(ts, N)), Times(k, Count(ts, D));
    pieces := Pieces(ts, env, m, d);
    PiecesLength(ts, env, m, d);
    forall i | 0 <= i < |ts|
      ensures pieces[i] == Piece(ts[i], env, m + Count(ts[..i], N), d + Count(ts[..i], D))
    {
      PieceAt(ts, i, env, m, d);
    }
  }

  ghost predicate SteadyClock(env: Env) {
    forall i: nat, j: nat :: |env.clock(i)| == |env.clock(j)|
  }

  /** If no piece of `a` is longer than its counterpart in `b`, equal concatenations have equal pieces. */
  lemma {:induction false} SamePieces(a: seq<string>, b: seq<string>)
    requires |a| == |b| && Flat(a) == Flat(b)
    requires forall i :: 0 <= i < |a| ==> |a[i]| <= |b[i]|
    ensures a == b
  {
    if a != [] {
      var n := |a| - 1;
      var front, last, front', last' := Flat(a[..n]), a[n], Flat(b[..n]), b[n];
      NotLonger(a[..n], b[..n]);
      assert front + last == front' + last' && |front| == |front'|;
      assert front == (front + last)[..|front|] && front' == (front' + last')[..|front'|];
      assert last == (front + last)[|front|..] && last' == (front' + last')[|front'|..];
      SamePieces(a[..n], b[..n]);
      assert a == a[..n] + [last] && b == b[..n] + [last'];
    }
  }

  lemma {:induction false} NotLonger(a: seq<string>, b: seq<string>)
    requires |a| == |b| && forall i :: 0 <= i < |a| ==> |a[i]| <= |b[i]|
    ensures |Flat(a)| <= |Flat(b)|
  {
    if a != [] {
      NotLonger(a[..|a| - 1], b[..|b| - 1]);
    }
  }

  lemma LiteralPiece(c: char, env: Env, filenum: nat, looks: nat)
    ensures Piece(Literal(c), env, filenum, looks) == [c] && One(Literal(c), N) == One(Literal(c), D) == 0
  {
  }

  lemma PieceNotLonger(t: Token, env: Env, f1: nat, r1: nat, f2: nat, r2: nat)
    requires (t.Argument? ==> Known(t.c)) && SteadyClock(env)
    requires f1 <= f2 && (t == N ==> f2 < env.modulus)
    ensures |Piece(t, env, f1, r1)| <= |Piece(t, env, f2, r2)|
  {
    if t == N {
      DecimalLonger(f1, f2);
    }
  }

  lemma PiecesNotLonger(ts: seq<Token>, env: Env, f1: nat, r1: nat, f2: nat, r2: nat)
    requires AllKnown(ts) && SteadyClock(env) && f1 <= f2 && f2 + Count(ts, N) <= env.modulus
    ensures |Pieces(ts, env, f1, r1)| == |Pieces(ts, env, f2, r2)| == |ts|
    ensures forall i :: 0 <= i < |ts| ==> |Pieces(ts, env, f1, r1)[i]| <= |Pieces(ts, env, f2, r2)[i]|
  {
    PiecesLength(ts, env, f1, r1);
    PiecesLength(ts, env, f2, r2);
    forall i | 0 <= i < |ts| ensures |Pieces(ts, env, f1, r1)[i]| <= |Pieces(ts, env, f2, r2)[i]| {
      CountPrefix(ts, i, N);
      PieceAt(ts, i, env, f1, r1);
      PieceAt(ts, i, env, f2, r2);
      PieceNotLonger(ts[i], env, f1 + Count(ts[..i], N), r1 + Count(ts[..i], D),
                     f2 + Count(ts[..i], N), r2 + Count(ts[..i], D));
    }
  }

  lemma PiecesLength(ts: seq<Token>, env: Env, filenum: nat, looks: nat)
    requires AllKnown(ts)
    ensures |Pieces(ts, env, filenum, looks)| == |ts|
  {
    if ts != [] {
      PieceAt(ts, 0, env, filenum, looks);
    }
  }

  lemma PiecesDiffer(ts: seq<Token>, env: Env, f1: nat, r1: nat, f2: nat, r2: nat)
    requires AllKnown(ts) && f1 < f2 && f2 + Count(ts, N) <= env.modulus && N in ts
    ensures Pieces(ts, env, f1, r1) != Pieces(ts, env, f2, r2)
  {
    var i :| 0 <= i < |ts| && ts[i] == N;
    CountPrefix(ts, i, N);
    var c := Count(ts[..i], N);
    PieceAt(ts, i, env, f1, r1);
    PieceAt(ts, i, env, f2, r2);
    if Decimal(f1 + c) == Decimal(f2 + c) {
      DecimalInjective(f1 + c, f2 + c);
    }
  }

  /** Expansions with different file numbers differ, however their pieces run into each other: file numbers only grow,
      so in the later name no piece is shorter. */
  lemma ExpandDiffers(ts: seq<Token>, env: Env, f1: nat, r1: nat, f2: nat, r2: nat)
    requires AllKnown(ts) && SteadyClock(env) && f1 < f2 && f2 + Count(ts, N) <= env.modulus && N in ts
    ensures Expand(ts, env, f1, r1) != Expand(ts, env, f2, r2)
  {
    PiecesNotLonger(ts, env, f1, r1, f2, r2);
    PiecesDiffer(ts, env, f1, r1, f2, r2);
    if Expand(ts, env, f1, r1) == Expand(ts, env, f2, r2) {
      SamePieces(Pieces(ts, env, f1, r1), Pieces(ts, env, f2, r2));
    }
  }

  /** Any two names of one generator differ while its file number has not wrapped around. */
  lemma NamesDiffer(ts: seq<Token>, env: Env, j: nat, k: nat)
    requires AllKnown(ts) && SteadyClock(env) && N in ts
    requires j < k && Times(k + 1, Count(ts, N)) <= env.modulus
    ensures Name(ts, env, j) != Name(ts, env, k)
  {
    var n, d := Count(ts, N), Count(ts, D);
    CountPositive(ts, N);
    TimesGrows(j, k, n);
    ExpandDiffers(ts, env, Times(j, n), Times(j, d), Times(k, n), Times(k, d));
  }

  ghost predicate StillClock(env: Env) {
    forall i: nat, j: nat :: env.clock(i) == env.clock(j)
  }

  lemma SameWhenStill(ts: seq<Token>, env: Env, filenum: nat, wraps: nat, r1: nat, r2: nat)
    requires AllKnown(ts) && StillClock(env)
    ensures Expand(ts, env, filenum, r1) == Expand(ts, env, filenum + Times(wraps, env.modulus), r2)
  {
    SamePiecesWhenStill(ts, env, filenum, wraps, r1, r2);
  }

  lemma {:induction false} SamePiecesWhenStill(ts: seq<Token>, env: Env, filenum: nat, wraps: nat, r1: nat, r2: nat)
    requires AllKnown(ts) && StillClock(env)
    ensures Pieces(ts, env, filenum, r1) == Pieces(ts, env, filenum + Times(wraps, env.modulus), r2)
  {
    if ts != [] {
      var front := ts[..|ts| - 1];
      WrapMultiple(filenum + Count(front, N), wraps, env.modulus);
      SamePiecesWhenStill(front, env, filenum, wraps, r1, r2);
    }
  }

  ghost predicate DistinctNames(ts: seq<Token>, env: Env, calls: nat)
    requires AllKnown(ts)
  {
    forall j, k :: 0 <= j < k < calls ==> Name(ts, env, j) != Name(ts, env, k)
  }

  /** The first `calls` names of a generator are pairwise distinct if they need no more file numbers than there are. */
  lemma NamesDistinct(ts: seq<Token>, env: Env, calls: nat)
    requires AllKnown(ts) && SteadyClock(env) && N in ts && Times(calls, Count(ts, N)) <= env.modulus
    ensures DistinctNames(ts, env, calls)
  {
    forall j, k | 0 <= j < k < calls ensures Name(ts, env, j) != Name(ts, env, k) {
      TimesMonotone(k + 1, calls, Count(ts, N));
      NamesDiffer(ts, env, j, k);
    }
  }

  /** With a clock that stands still, the names are distinct exactly when the pattern has a "%n". */
  lemma DistinctIff(ts: seq<Token>, env: Env, calls: nat)
    requires AllKnown(ts) && StillClock(env) && calls >= 2 && Times(calls, Count(ts, N)) <= env.modulus
    ensures DistinctNames(ts, env, calls) <==> N in ts
  {
    if N in ts {
      NamesDistinct(ts, env, calls);
    } else {
      SecondNameRepeats(ts, env);
    }
  }

  lemma SecondNameRepeats(ts: seq<Token>, env: Env)
    requires AllKnown(ts) && StillClock(env) && N !in ts
    ensures Name(ts, env, 0) == Name(ts, env, 1)
  {
    CountPositive(ts, N);
    assert Times(1, 0) == 0;
    SameWhenStill(ts, env, 0, 0, Times(0, Count(ts, D)), Times(1, Count(ts, D)));
  }

  /** Once the file number has wrapped around, names repeat if the clock shows the same date. */
  lemma NamesRepeatAfterWrap(ts: seq<Token>, env: Env, k: nat)
    requires AllKnown(ts) && StillClock(env)
    ensures Name(ts, env, k) == Name(ts, env, k + env.modulus)
  {
    var n, d := Count(ts, N), Count(ts, D);
    TimesSum(k, env.modulus, n);
    TimesCommutes(env.modulus, n);
    SameWhenStill(ts, env, Times(k, n), n, Times(k, d), Times(k + env.modulus, d));
  }

  // --- the two scanners ---

  /** One step of a scanner at index `i`: the token there, and what remains of the token list `rest`. */
  lemma ScanStep(pattern: string, i: nat, rest: seq<Token>)
    requires i < |pattern| && rest == Tokens(pattern[i..])
    ensures var isArgument := pattern[i] == '%' && i + 1 != |pattern|;
            && rest != []
            && rest[0] == (if isArgument then Argument(pattern[i + 1]) else Literal(pattern[i]))
            && rest[1..] == Tokens(pattern[if isArgument then i + 2 else i + 1..])
  {
    assert pattern[i..][1..] == pattern[i + 1..];
    if i + 1 != |pattern| {
      assert pattern[i..][2..] == pattern[i + 2..];
    }
  }

  lemma NoTokens(pattern: string)
    requires pattern == []
    ensures Tokens(pattern) == []
  {
  }

  /** The configuration check: true when all four fields occur. Both scanners cut a pattern into the same tokens. */
  method YieldsUnique(pattern: string) returns (unique: bool)
    ensures unique <==> forall c <- ['n', 'c', 'D', 'r'] :: Argument(c) in Tokens(pattern)
  {
    hide Tokens;
    var fields := map['n' := false, 'c' := false, 'D' := false, 'r' := false];
    var i := 0;
    ghost var seen: seq<Token>, rest := [], Tokens(pattern);
    assert pattern[0..] == pattern && seen + rest == rest;
    while i < |pattern|
      invariant 0 <= i <= |pattern| && rest == Tokens(pattern[i..]) && seen + rest == Tokens(pattern)
      invariant fields.Keys == {'n', 'c', 'D', 'r'}
      invariant forall c <- fields :: fields[c] <==> Argument(c) in seen
    {
      ScanStep(pattern, i, rest);
      if pattern[i] == '%' && i + 1 != |pattern| {
        i := i + 1;
        if pattern[i] in fields {
          fields := fields[pattern[i] := true];
        }
      }
      assert rest == [rest[0]] + rest[1..];
      Assoc(seen, [rest[0]], rest[1..]);
      seen, rest, i := seen + [rest[0]], rest[1..], i + 1;
    }
    NoTokens(pattern[i..]);
    assert seen + [] == seen;
    unique := fields['n'] && fields['c'] && fields['D'] && fields['r'];
  }

  datatype Outcome = Opened(name: string) | UnknownArgument(c: char)

  /** `used` tokens have been expanded to `name`, starting from the counters `n0` and `d0`. */
  ghost predicate Progress(ts: seq<Token>, used: nat, env: Env, n0: nat, d0: nat, name: string, n: nat, d: nat)
    requires used <= |ts|
  {
    && AllKnown(ts[..used])
    && name == Expand(ts[..used], env, n0, d0)
    && n == n0 + Count(ts[..used], N)
    && d == d0 + Count(ts[..used], D)
  }

  lemma OneMore(ts: seq<Token>, used: nat, env: Env, n0: nat, d0: nat, name: string, n: nat, d: nat)
    requires used < |ts| && (ts[used].Argument? ==> Known(ts[used].c))
    requires Progress(ts, used, env, n0, d0, name, n, d)
    ensures Progress(ts, used + 1, env, n0, d0, name + Piece(ts[used], env, n, d), n + One(ts[used], N),
                     d + One(ts[used], D))
  {
    PrefixSnoc(ts, used);
    CountPrefix(ts, used, N);
    CountPrefix(ts, used, D);
    assert ts[..used + 1][..used] == ts[..used];
    FlatSnoc(Pieces(ts[..used], env, n0, d0), Piece(ts[used], env, n, d));
  }

  class FileGenerator {
    const pattern: string
    const env: Env
    var filenum: nat
    // How many file numbers have been used, without wrap-around, and how often the clock has been read.
    ghost var numbers: nat
    var looks: nat

    ghost predicate Valid()
      reads this
    {
      filenum == Wrap(numbers, env.modulus)
    }

    constructor (pattern: string, env: Env)
      ensures Valid() && this.pattern == pattern && this.env == env && numbers == 0 && looks == 0
    {
      this.pattern, this.env, filenum, numbers, looks := pattern, env, 0, 0, 0;
    }

    /** Expands the pattern once. `used` is how many tokens were expanded: all of them unless an unknown argument
        comes first, and the file numbers they took are used up in either case. */
    method Next() returns (r: Outcome, ghost used: nat)
      requires Valid()
      modifies this`filenum, this`numbers, this`looks
      ensures Valid() && used <= |Tokens(pattern)| && AllKnown(Tokens(pattern)[..used])
      ensures r.Opened? ==>
                used == |Tokens(pattern)| && AllKnown(Tokens(pattern))
                && r.name == Expand(Tokens(pattern), env, old(numbers), old(looks))
      ensures r.UnknownArgument? ==>
                used < |Tokens(pattern)| && Tokens(pattern)[used] == Argument(r.c) && !Known(r.c)
      ensures numbers == old(numbers) + Count(Tokens(pattern)[..used], N)
      ensures looks == old(looks) + Count(Tokens(pattern)[..used], D)
    {
      var name, i := "", 0;
      ghost var ts := Tokens(pattern);
      used := 0;
      assert pattern[0..] == pattern && ts[0..] == ts && ts[..0] == [];
      hide Tokens, Expand, Count, Piece, Wrap, Decimal;
      while i < |pattern|
        invariant Valid()
        invariant 0 <= i <= |pattern| && used <= |ts| && ts[used..] == Tokens(pattern[i..])
        invariant Progress(ts, used, env, old(numbers), old(looks), name, numbers, looks)
      {
        ghost var n, d := numbers, looks;
        var r, next := NextPiece(i, ts[used..]);
        assert ts[used..][0] == ts[used] && ts[used..][1..] == ts[used + 1..];
        if r.UnknownArgument? {
          return r, used;
        }
        OneMore(ts, used, env, old(numbers), old(looks), name, n, d);
        name, i, used := name + r.name, next, used + 1;
      }
      NoTokens(pattern[i..]);
      assert ts[used..] == [] && ts[..used] == ts;
      return Opened(name), used;
    }

    /** Reads the characters at `i`: the text of the next token, unless its argument is unknown, and where to go on. */
    method NextPiece(i: nat, ghost rest: seq<Token>) returns (r: Outcome, next: nat)
      requires Valid() && i < |pattern| && rest == Tokens(pattern[i..])
      modifies this`filenum, this`numbers, this`looks
      ensures Valid() && rest != [] && i < next <= |pattern| && rest[1..] == Tokens(pattern[next..])
      ensures r.Opened? ==>
                (rest[0].Argument? ==> Known(rest[0].c)) && r.name == Piece(rest[0], env, old(numbers), old(looks))
      ensures r.Opened? ==> numbers == old(numbers) + One(rest[0], N) && looks == old(looks) + One(rest[0], D)
      ensures r.UnknownArgument? ==>
                rest[0] == Argument(r.c) && !Known(r.c) && numbers == old(numbers) && looks == old(looks)
    {
      hide Tokens, Piece, Wrap, Decimal;
      ScanStep(pattern, i, rest);
      if pattern[i] == '%' && i + 1 != |pattern| {
        next := i + 2;
        if Known(pattern[i + 1]) {
          var text := HandleArgument(pattern[i + 1]);
          r := Opened(text);
        } else {
          r := UnknownArgument(pattern[i + 1]);
        }
      } else {
        LiteralPiece(pattern[i], env, numbers, looks);
        r, next := Opened([pattern[i]]), i + 1;
      }
    }

    /** The value of one field; "%n" takes a file number. */
    method HandleArgument(c: char) returns (text: string)
      requires Valid() && Known(c)
      modifies this`filenum, this`numbers, this`looks
      ensures Valid() && text == Piece(Argument(c), env, old(numbers), old(looks))
      ensures numbers == old(numbers) + One(Argument(c), N)
      ensures looks == old(looks) + One(Argument(c), D)
      ensures c == 'D' ==> text == env.clock(old(looks)) && looks == old(looks) + 1 && filenum == old(filenum)
      ensures c == 'n' ==> text == Decimal(old(filenum)) && looks == old(looks)
                           && filenum == if old(filenum) + 1 == env.modulus then 0 else old(filenum) + 1
      ensures c == 'c' ==> text == Decimal(env.chid) && looks == old(looks) && filenum == old(filenum)
      ensures c == 'r' ==> text == Decimal(env.run) && looks == old(looks) && filenum == old(filenum)
    {
      match c
      case 'D' => text, looks := env.clock(looks), looks + 1;
      case 'n' =>
        WrapStep(numbers, env.modulus);
        text, filenum := Decimal(filenum), if filenum + 1 == env.modulus then 0 else filenum + 1;
        numbers := numbers + 1;
      case 'c' => text := Decimal(env.chid);
      case _ => text := Decimal(env.run);
    }
  }

  /** A whole life of one generator with an accepted pattern: no name occurs twice. */
  method Generate(pattern: string, env: Env, calls: nat) returns (accepted: bool, names: seq<string>)
    requires SteadyClock(env) && Times(calls, Count(Tokens(pattern), N)) <= env.modulus
    ensures accepted && AllKnown(Tokens(pattern)) ==>
              |names| == calls && forall j, k :: 0 <= j < k < calls ==> names[j] != names[k]
    // An unknown field is not noticed by the check, but then no call ever opens a file.
    ensures !accepted || !AllKnown(Tokens(pattern)) ==> names == []
  {
    hide Tokens, Pieces, Flat, Count;
    names := [];
    accepted := YieldsUnique(pattern);
    if !accepted {
      return;
    }
    ghost var ts := Tokens(pattern);
    ghost var n, d := Count(ts, N), Count(ts, D);
    var generator := new FileGenerator(pattern, env);
    for k := 0 to calls
      invariant !AllKnown(ts) ==> names == []
      invariant generator.pattern == pattern && generator.env == env && generator.Valid()
      invariant AllKnown(ts) ==> |names| == k && generator.numbers == Times(k, n) && generator.looks == Times(k, d)
      invariant AllKnown(ts) ==> forall j :: 0 <= j < k ==> names[j] == Name(ts, env, j)
    {
      var r, used := generator.Next();
      if r.Opened? {
        assert ts[..used] == ts;
        names := names + [r.name];
      } else {
        assert ts[used] in ts;
      }
    }
    if AllKnown(ts) {
      NamesDistinct(ts, env, calls);
      assert forall j, k :: 0 <= j < k < calls ==> names[j] == Name(ts, env, j) && names[k] == Name(ts, env, k);
    }
  }
}
