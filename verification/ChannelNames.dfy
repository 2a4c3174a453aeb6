/** The output file names of several channels and runs: for the same pattern, every channel has a generator of its own
    in every run, and each generator reads the clock when it needs a date. */
module ChannelNames {
  import opened Arithmetic
  import opened Sequences
  import opened FileNames

  const C := Argument('c')
  const R := Argument('r')

  predicate IsDigit(c: char) {
    '0' <= c <= '9'
  }

  predicate Digits(s: string) {
    forall c <- s :: IsDigit(c)
  }

  /** How many digits a text ends with. */
  function TrailingDigits(s: string): nat {
    if s == [] || !IsDigit(s[|s| - 1]) then 0 else TrailingDigits(s[..|s| - 1]) + 1
  }

  /** Two texts with digits in the same places. */
  predicate Aligned(s: string, t: string) {
    |s| == |t| && forall i :: 0 <= i < |s| ==> (IsDigit(s[i]) <==> IsDigit(t[i]))
  }

  lemma {:induction false} TrailingConcat(s: string, t: string)
    ensures TrailingDigits(s + t) == if Digits(t) then TrailingDigits(s) + |t| else TrailingDigits(t)
  {
    if t == [] {
      assert s + t == s;
    } else {
      var n := |t| - 1;
      assert (s + t)[..|s + t| - 1] == s + t[..n];
      assert t == t[..n] + [t[n]];
      TrailingConcat(s, t[..n]);
    }
  }

  lemma {:induction false} TrailingAligned(s: string, t: string)
    requires Aligned(s, t)
    ensures TrailingDigits(s) == TrailingDigits(t) && (Digits(s) <==> Digits(t))
  {
    if s != [] {
      var n := |s| - 1;
      assert s == s[..n] + [s[n]] && t == t[..n] + [t[n]];
      TrailingAligned(s[..n], t[..n]);
    }
  }

  lemma {:induction false} DecimalDigits(n: nat)
    ensures Digits(Decimal(n))
  {
    if n >= 10 {
      DecimalDigits(n / 10);
    }
  }

  lemma {:induction false} NoLeadingZero(n: nat)
    ensures |Decimal(n)| == 1 <==> n < 10
    ensures n > 0 ==> Decimal(n)[0] != '0'
  {
    if n >= 10 {
      NoLeadingZero(n / 10);
    }
  }

  /** The number that a text of digits stands for. */
  function Value(s: string): nat
    requires Digits(s)
  {
    if s == [] then 0
    else
      assert IsDigit(s[|s| - 1]);
      10 * Value(s[..|s| - 1]) + (s[|s| - 1] - '0') as nat
  }

  lemma {:induction false} ValueDecimal(s: string)
    requires Digits(s) && s != [] && s[0] != '0'
    ensures Value(s) > 0 && Decimal(Value(s)) == s
  {
    var n := |s| - 1;
    assert IsDigit(s[n]);
    var d := (s[n] - '0') as nat;
    assert s == s[..n] + [s[n]] && Digit(d) == s[n];
    if n > 0 {
      ValueDecimal(s[..n]);
      var v := Value(s[..n]);
      assert (10 * v + d) / 10 == v && (10 * v + d) % 10 == d;
    }
  }

  // --- generators whose names never meet ---

  /** The fields that tell apart the generators of one run, or those of all runs. */
  predicate Fields(fields: set<Token>) {
    fields == {C, N} || fields == {C, N, R}
  }

  /** A token whose text always has a character that is not a digit, where dates look like `date`. */
  predicate Breaks(t: Token, date: string) {
    (t.Literal? && !IsDigit(t.c)) || (t == D && !Digits(date))
  }

  /** After each field there is a token that breaks. */
  predicate Fresh(ts: seq<Token>, fields: set<Token>, date: string) {
    forall p :: 0 <= p < |ts| && ts[p] in fields ==> exists i :: p < i < |ts| && Breaks(ts[i], date)
  }

  /** Between any two fields there is a token that breaks. */
  predicate Separated(ts: seq<Token>, fields: set<Token>, date: string) {
    forall p, q :: 0 <= p < q < |ts| && ts[p] in fields && ts[q] in fields ==>
      exists i :: p < i < q && Breaks(ts[i], date)
  }

  /** Every date that the generator reads has its digits where `date` has them, as dates of one format do. */
  ghost predicate Reads(env: Env, date: string) {
    forall i: nat :: Aligned(env.clock(i), date)
  }

  /** Two generators that may differ in their channel, in the dates they read and, if it is a field, in their run. */
  ghost predicate Siblings(a: Env, b: Env, fields: set<Token>, date: string) {
    Fields(fields) && Reads(a, date) && Reads(b, date) && (R in fields || a.run == b.run)
  }

  lemma SeparatedFront(ts: seq<Token>, fields: set<Token>, date: string)
    requires Separated(ts, fields, date) && ts != []
    ensures var front, t := ts[..|ts| - 1], ts[|ts| - 1];
            Separated(front, fields, date) && (t in fields ==> Fresh(front, fields, date))
  {
    var n := |ts| - 1;
    var front := ts[..n];
    forall p, q | 0 <= p < q < n && front[p] in fields && front[q] in fields
      ensures exists i :: p < i < q && Breaks(front[i], date)
    {
      var i :| p < i < q && Breaks(ts[i], date);
      assert Breaks(front[i], date);
    }
    forall p | 0 <= p < n && front[p] in fields && ts[n] in fields
      ensures exists i :: p < i < n && Breaks(front[i], date)
    {
      assert ts[p] in fields;
      var i :| p < i < n && Breaks(ts[i], date);
      assert Breaks(front[i], date);
    }
  }

  lemma FreshFront(ts: seq<Token>, fields: set<Token>, date: string)
    requires Fresh(ts, fields, date) && ts != [] && !Breaks(ts[|ts| - 1], date)
    ensures ts[|ts| - 1] !in fields && Fresh(ts[..|ts| - 1], fields, date)
  {
    var n := |ts| - 1;
    forall p | 0 <= p < n && ts[..n][p] in fields ensures exists i :: p < i < n && Breaks(ts[..n][i], date) {
      assert ts[p] in fields;
      var i :| p < i < |ts| && Breaks(ts[i], date);
      assert Breaks(ts[..n][i], date);
    }
  }

  lemma PieceShapes(t: Token, a: Env, b: Env, m: nat, n: nat, i: nat, j: nat, fields: set<Token>, date: string)
    requires (t.Argument? ==> Known(t.c)) && Siblings(a, b, fields, date)
    ensures var p, q := Piece(t, a, m, i), Piece(t, b, n, j);
            if t in fields then Digits(p) && Digits(q) else Aligned(p, q) && (Breaks(t, date) <==> !Digits(p))
  {
    if t == N {
      DecimalDigits(Wrap(m, a.modulus));
      DecimalDigits(Wrap(n, b.modulus));
    } else if t == C {
      DecimalDigits(a.chid);
      DecimalDigits(b.chid);
    } else if t == D {
      TrailingAligned(a.clock(i), date);
      assert Aligned(b.clock(j), date);
    } else if t.Argument? {
      DecimalDigits(a.run);
      DecimalDigits(b.run);
    }
  }

  lemma ExpandSnoc(ts: seq<Token>, env: Env, m: nat, i: nat)
    requires AllKnown(ts) && ts != []
    ensures var front, t := ts[..|ts| - 1], ts[|ts| - 1];
            && Expand(ts, env, m, i)
               == Expand(front, env, m, i) + Piece(t, env, m + Count(front, N), i + Count(front, D))
  {
    var front, t := ts[..|ts| - 1], ts[|ts| - 1];
    FlatSnoc(Pieces(front, env, m, i), Piece(t, env, m + Count(front, N), i + Count(front, D)));
  }

  /** After a break, or where no field came yet, all texts end with the same number of digits. */
  lemma {:induction false} FreshTail(ts: seq<Token>, a: Env, b: Env, m: nat, n: nat, i: nat, j: nat,
                                     fields: set<Token>, date: string)
    requires AllKnown(ts) && Siblings(a, b, fields, date) && Fresh(ts, fields, date)
    ensures TrailingDigits(Expand(ts, a, m, i)) == TrailingDigits(Expand(ts, b, n, j))
  {
    hide Expand, Piece, Count, AllKnown, Reads, Fresh, Breaks;
    if ts != [] {
      var front, t := ts[..|ts| - 1], ts[|ts| - 1];
      KnownFront(ts);
      ExpandSnoc(ts, a, m, i);
      ExpandSnoc(ts, b, n, j);
      var p := Piece(t, a, m + Count(front, N), i + Count(front, D));
      var q := Piece(t, b, n + Count(front, N), j + Count(front, D));
      PieceShapes(t, a, b, m + Count(front, N), n + Count(front, N), i + Count(front, D), j + Count(front, D),
                  fields, date);
      TrailingConcat(Expand(front, a, m, i), p);
      TrailingConcat(Expand(front, b, n, j), q);
      if Breaks(t, date) {
        LastBreaks(ts, fields, date);
        TrailingAligned(p, q);
      } else {
        FreshFront(ts, fields, date);
        TrailingAligned(p, q);
        FreshTail(front, a, b, m, n, i, j, fields, date);
      }
    } else {
      ExpandNone(a, m, i);
      ExpandNone(b, n, j);
    }
  }

  lemma LastBreaks(ts: seq<Token>, fields: set<Token>, date: string)
    requires ts != [] && Breaks(ts[|ts| - 1], date) && Fields(fields)
    ensures ts[|ts| - 1] !in fields
  {
  }

  lemma ExpandNone(env: Env, m: nat, i: nat)
    ensures Expand([], env, m, i) == ""
  {
  }

  lemma KnownFront(ts: seq<Token>)
    requires AllKnown(ts) && ts != []
    ensures AllKnown(ts[..|ts| - 1]) && (ts[|ts| - 1].Argument? ==> Known(ts[|ts| - 1].c))
  {
  }

  lemma CancelBack<T>(s: seq<T>, t: seq<T>, u: seq<T>, v: seq<T>)
    requires s + t == u + v && |t| == |v|
    ensures s == u && t == v
  {
    assert |s| == |u|;
    assert s == (s + t)[..|s|] && u == (u + v)[..|u|];
    assert t == (s + t)[|s|..] && v == (u + v)[|u|..];
  }

  /** Equal expansions show the same channel and the same run. */
  lemma {:induction false} SameFields(ts: seq<Token>, a: Env, b: Env, m: nat, n: nat, i: nat, j: nat,
                                      fields: set<Token>, date: string)
    requires AllKnown(ts) && Siblings(a, b, fields, date) && Separated(ts, fields, date)
    requires Expand(ts, a, m, i) == Expand(ts, b, n, j)
    ensures (C in ts ==> a.chid == b.chid) && (R in ts ==> a.run == b.run)
  {
    hide Expand, Count, AllKnown, Separated, Siblings, Fresh;
    if ts != [] {
      var front, t := ts[..|ts| - 1], ts[|ts| - 1];
      KnownFront(ts);
      SeparatedFront(ts, fields, date);
      ExpandSnoc(ts, a, m, i);
      ExpandSnoc(ts, b, n, j);
      var p := Piece(t, a, m + Count(front, N), i + Count(front, D));
      var q := Piece(t, b, n + Count(front, N), j + Count(front, D));
      LastAligned(ts, a, b, m, n, i, j, p, q, fields, date);
      CancelBack(Expand(front, a, m, i), p, Expand(front, b, n, j), q);
      SameFields(front, a, b, m, n, i, j, fields, date);
      assert ts == front + [t];
      if t == C {
        DecimalInjective(a.chid, b.chid);
      } else if t == R {
        DecimalInjective(a.run, b.run);
      }
    }
  }

  lemma LastAligned(ts: seq<Token>, a: Env, b: Env, m: nat, n: nat, i: nat, j: nat, p: string, q: string,
                    fields: set<Token>, date: string)
    requires AllKnown(ts) && Siblings(a, b, fields, date) && ts != []
    requires var front, t := ts[..|ts| - 1], ts[|ts| - 1];
             && AllKnown(front) && (t.Argument? ==> Known(t.c)) && (t in fields ==> Fresh(front, fields, date))
             && p == Piece(t, a, m + Count(front, N), i + Count(front, D))
             && q == Piece(t, b, n + Count(front, N), j + Count(front, D))
             && Expand(front, a, m, i) + p == Expand(front, b, n, j) + q
    ensures |p| == |q|
  {
    hide Expand, Count, AllKnown, Siblings, Piece, Fresh, Known, Breaks;
    var front, t := ts[..|ts| - 1], ts[|ts| - 1];
    PieceShapes(t, a, b, m + Count(front, N), n + Count(front, N), i + Count(front, D), j + Count(front, D),
                fields, date);
    if t in fields {
      FreshTail(front, a, b, m, n, i, j, fields, date);
      TrailingConcat(Expand(front, a, m, i), p);
      TrailingConcat(Expand(front, b, n, j), q);
    }
  }

  /** All names of two generators differ, however often their file numbers wrap around. */
  ghost predicate NeverMeet(ts: seq<Token>, a: Env, b: Env)
    requires AllKnown(ts)
  {
    forall j: nat, k: nat :: Name(ts, a, j) != Name(ts, b, k)
  }

  /** Separated fields keep the names of different channels and runs apart, with any number of fields and whatever dates
      the two generators read. */
  lemma SeparatedNeverMeet(ts: seq<Token>, a: Env, b: Env, fields: set<Token>, date: string)
    requires AllKnown(ts) && Siblings(a, b, fields, date) && Separated(ts, fields, date)
    requires (C in ts && a.chid != b.chid) || (R in ts && a.run != b.run)
    ensures NeverMeet(ts, a, b)
  {
    forall j: nat, k: nat ensures Name(ts, a, j) != Name(ts, b, k) {
      if Name(ts, a, j) == Name(ts, b, k) {
        var n, d := Count(ts, N), Count(ts, D);
        SameFields(ts, a, b, Times(j, n), Times(k, n), Times(j, d), Times(k, d), fields, date);
      }
    }
  }

  // --- patterns with every field once ---

  predicate Once(ts: seq<Token>, fields: set<Token>) {
    forall t <- fields :: Count(ts, t) == 1
  }

  /** The text of a field in the name with number `k`. */
  function Shown(t: Token, env: Env, k: nat): string {
    if t == C then Decimal(env.chid) else if t == R then Decimal(env.run) else Decimal(Wrap(k, env.modulus))
  }

  ghost predicate Still(env: Env, date: string) {
    forall i: nat :: env.clock(i) == date
  }

  /** Texts do not differ where no field does. */
  lemma {:induction false} FixedText(ts: seq<Token>, a: Env, b: Env, m: nat, n: nat, i: nat, j: nat, date: string)
    requires AllKnown(ts) && Still(a, date) && Still(b, date)
    requires (C in ts ==> a.chid == b.chid) && (R in ts ==> a.run == b.run)
    requires N in ts ==> m == n && (a.modulus == b.modulus || (m == 0 && Count(ts, N) == 1))
    ensures Expand(ts, a, m, i) == Expand(ts, b, n, j)
  {
    hide Expand, AllKnown;
    if ts == [] {
      ExpandNone(a, m, i);
      ExpandNone(b, n, j);
    } else {
      var front, t := ts[..|ts| - 1], ts[|ts| - 1];
      assert ts == front + [t];
      KnownFront(ts);
      ExpandSnoc(ts, a, m, i);
      ExpandSnoc(ts, b, n, j);
      CountPositive(front, N);
      FixedText(front, a, b, m, n, i, j, date);
    }
  }

  lemma {:induction false} ExpandConcat(s: seq<Token>, t: seq<Token>, env: Env, m: nat, i: nat)
    requires AllKnown(s) && AllKnown(t)
    ensures AllKnown(s + t)
    ensures Expand(s + t, env, m, i) == Expand(s, env, m, i) + Expand(t, env, m + Count(s, N), i + Count(s, D))
  {
    hide Expand, Piece, Count, Known;
    if t == [] {
      assert s + t == s;
      ExpandNone(env, m + Count(s, N), i + Count(s, D));
    } else {
      var front, last := t[..|t| - 1], t[|t| - 1];
      assert (s + t)[..|s + t| - 1] == s + front;
      ExpandConcat(s, front, env, m, i);
      ExpandSnoc(s + t, env, m, i);
      ExpandSnoc(t, env, m + Count(s, N), i + Count(s, D));
      CountConcat(s, front, N);
      CountConcat(s, front, D);
    }
  }

  lemma ExpandAt(ts: seq<Token>, c: nat, env: Env, m: nat, i: nat)
    requires AllKnown(ts) && c < |ts|
    ensures AllKnown(ts[..c + 1]) && AllKnown(ts[c + 1..])
    ensures Expand(ts[..c + 1], env, m, i)
         == Expand(ts[..c], env, m, i) + Piece(ts[c], env, m + Count(ts[..c], N), i + Count(ts[..c], D))
    ensures Expand(ts, env, m, i)
         == Expand(ts[..c + 1], env, m, i)
            + Expand(ts[c + 1..], env, m + Count(ts[..c + 1], N), i + Count(ts[..c + 1], D))
  {
    hide Expand, Piece, Count, Known;
    assert ts == ts[..c + 1] + ts[c + 1..] && ts[..c + 1][..c] == ts[..c];
    ExpandConcat(ts[..c + 1], ts[c + 1..], env, m, i);
    ExpandSnoc(ts[..c + 1], env, m, i);
  }

  /** What occurs once at `p` occurs nowhere else. */
  lemma OnlyAt(ts: seq<Token>, p: nat)
    requires p < |ts| && Count(ts, ts[p]) == 1
    ensures ts[p] !in ts[..p] && ts[p] !in ts[p + 1..]
    ensures Count(ts[..p], ts[p]) == 0 && Count(ts[..p + 1], ts[p]) == 1
  {
    hide Count;
    CountPrefix(ts, p, ts[p]);
    assert ts == ts[..p + 1] + ts[p + 1..];
    CountConcat(ts[..p + 1], ts[p + 1..], ts[p]);
    CountPositive(ts[..p], ts[p]);
    CountPositive(ts[p + 1..], ts[p]);
  }

  /** A name around two of its fields. */
  lemma NameParts(ts: seq<Token>, p: nat, q: nat, env: Env, k: nat, fields: set<Token>)
    requires AllKnown(ts) && Fields(fields) && Once(ts, fields)
    requires p < q < |ts| && ts[p] in fields && ts[q] in fields
    ensures var i, d := Times(k, Count(ts, D)), Count(ts[..p + 1], D);
            Name(ts, env, k)
            == Expand(ts[..p], env, k, i) + Shown(ts[p], env, k)
               + Expand(ts[p + 1..q], env, k + Count(ts[..p + 1], N), i + d)
               + Shown(ts[q], env, k) + Expand(ts[q + 1..], env, k + Count(ts[..q + 1], N), i + Count(ts[..q + 1], D))
  {
    hide Expand, Count, AllKnown;
    assert N in fields;
    TimesOne(k);
    var i := Times(k, Count(ts, D));
    assert ts[..q][..p] == ts[..p] && ts[..q][p + 1..] == ts[p + 1..q] && ts[..q][..p + 1] == ts[..p + 1];
    KnownPart(ts, p, q);
    ExpandAt(ts, q, env, k, i);
    ExpandAt(ts[..q], p, env, k, i);
    OnlyAt(ts, p);
    OnlyAt(ts, q);
  }

  lemma KnownPart(ts: seq<Token>, p: nat, q: nat)
    requires AllKnown(ts) && p < q < |ts|
    ensures AllKnown(ts[..p]) && AllKnown(ts[p + 1..q]) && AllKnown(ts[q + 1..]) && AllKnown(ts[..q])
    ensures (ts[p].Argument? ==> Known(ts[p].c)) && (ts[q].Argument? ==> Known(ts[q].c))
  {
  }

  lemma {:induction false} UnbrokenDigits(ts: seq<Token>, env: Env, m: nat, i: nat, date: string)
    requires AllKnown(ts) && Reads(env, date) && forall t <- ts :: !Breaks(t, date)
    ensures Digits(Expand(ts, env, m, i))
  {
    hide Expand, Count, Piece, Reads;
    if ts == [] {
      ExpandNone(env, m, i);
    } else {
      var front, t := ts[..|ts| - 1], ts[|ts| - 1];
      ExpandSnoc(ts, env, m, i);
      UnbrokenDigits(front, env, m, i, date);
      PieceShapes(t, env, env, m + Count(front, N), 0, i + Count(front, D), 0, {C, N, R}, date);
      assert !Breaks(t, date);
    }
  }

  /** Two different generators of one configuration, both of `run` unless the run is a field. */
  ghost predicate Different(a: Env, b: Env, fields: set<Token>, run: nat, date: string) {
    && Reads(a, date) && Reads(b, date) && a.modulus == b.modulus
    && (a.chid != b.chid || a.run != b.run) && (R in fields || a.run == b.run == run)
  }

  /** No two generators ever share a name, whatever their channels, runs and dates and however many file numbers there
      are. */
  ghost predicate AllApart(ts: seq<Token>, fields: set<Token>, run: nat, date: string)
    requires AllKnown(ts)
  {
    forall a: Env, b: Env :: Different(a, b, fields, run, date) ==> NeverMeet(ts, a, b)
  }

  /** With every field once, the channels of a run, or those of all runs, keep apart exactly when something other than
      digits stands between any two fields. */
  lemma AllApartIff(ts: seq<Token>, fields: set<Token>, run: nat, date: string)
    requires AllKnown(ts) && Fields(fields) && Once(ts, fields)
    ensures AllApart(ts, fields, run, date) <==> Separated(ts, fields, date)
  {
    hide Name, Once;
    if Separated(ts, fields, date) {
      FieldsOccur(ts, fields);
      forall a: Env, b: Env | Different(a, b, fields, run, date) ensures NeverMeet(ts, a, b) {
        SeparatedNeverMeet(ts, a, b, fields, date);
      }
    } else {
      var p, q :| 0 <= p < q < |ts| && ts[p] in fields && ts[q] in fields
                  && !exists i :: p < i < q && Breaks(ts[i], date);
      UnbrokenMeet(ts, p, q, fields, run, date);
    }
  }

  lemma FieldsOccur(ts: seq<Token>, fields: set<Token>)
    requires Once(ts, fields)
    ensures forall t <- fields :: t in ts
  {
    forall t <- fields ensures t in ts {
      CountPositive(ts, t);
    }
  }

  /** The value of `t` where `s` has the value `u` and `r` has the value `v`. */
  function Pick(t: Token, s: Token, u: nat, r: Token, v: nat, other: nat): nat {
    if t == s then u else if t == r then v else other
  }

  /** A generator that reads the same date all the time. */
  function On(chid: nat, run: nat, modulus: Positive, date: string): Env {
    Env(chid, run, modulus, _ => date)
  }

  function Generator(s: Token, u: nat, r: Token, v: nat, run: nat, modulus: Positive, date: string): Env {
    On(Pick(C, s, u, r, v, 0), Pick(R, s, u, r, v, run), modulus, date)
  }

  /** Around any gap of digits, the end of one number can be read as the start of the other. */
  lemma UnbrokenMeet(ts: seq<Token>, p: nat, q: nat, fields: set<Token>, run: nat, date: string)
    requires AllKnown(ts) && Fields(fields) && Once(ts, fields)
    requires p < q < |ts| && ts[p] in fields && ts[q] in fields
    requires !exists i :: p < i < q && Breaks(ts[i], date)
    ensures !AllApart(ts, fields, run, date)
  {
    hide Name, Expand, Decimal, Value, Wrap, Once;
    KnownPart(ts, p, q);
    var base := On(0, run, 1, date);
    UnbrokenDigits(ts[p + 1..q], base, 0, 0, date);
    var gap := Expand(ts[p + 1..q], base, 0, 0);
    var long, longer := "1" + gap + "0", "1" + gap + "1";
    ValueDecimal(long);
    ValueDecimal(longer);
    OneDigits();
    var modulus := Value(long) + Value(longer) + 2;
    TwoFields(ts, p, q, fields);
    var a := Generator(ts[p], 1, ts[q], Value(long), run, modulus, date);
    var b := Generator(ts[p], Value(longer), ts[q], 0, run, modulus, date);
    var j, k := Pick(N, ts[p], 1, ts[q], Value(long), 0), Pick(N, ts[p], Value(longer), ts[q], 0, 0);
    Meet(ts, p, q, fields, base, a, b, j, k, date);
    assert Different(a, b, fields, run, date) && !NeverMeet(ts, a, b);
  }

  lemma TwoFields(ts: seq<Token>, p: nat, q: nat, fields: set<Token>)
    requires Once(ts, fields) && p < q < |ts| && ts[p] in fields && ts[q] in fields
    ensures ts[p] != ts[q]
  {
    OnlyAt(ts, p);
    assert ts[q] in ts[p + 1..];
  }

  lemma OneDigits()
    ensures Decimal(0) == "0" && Decimal(1) == "1"
  {
  }

  /** No field but `s` and `r` tells the generators apart. */
  predicate ElseAlike(s: Token, r: Token, a: Env, b: Env, j: nat, k: nat) {
    && (C !in {s, r} ==> a.chid == b.chid) && (R !in {s, r} ==> a.run == b.run)
    && (N !in {s, r} ==> j == k == 0)
  }

  lemma Meet(ts: seq<Token>, p: nat, q: nat, fields: set<Token>, base: Env, a: Env, b: Env, j: nat, k: nat,
             date: string)
    requires AllKnown(ts) && Fields(fields) && Once(ts, fields)
    requires p < q < |ts| && ts[p] in fields && ts[q] in fields && AllKnown(ts[p + 1..q])
    requires Still(base, date) && Still(a, date) && Still(b, date) && a.modulus == b.modulus
    requires ElseAlike(ts[p], ts[q], a, base, j, 0) && ElseAlike(ts[p], ts[q], b, base, k, 0)
    requires var gap := Expand(ts[p + 1..q], base, 0, 0);
             && Shown(ts[p], a, j) == "1" && Shown(ts[q], a, j) == "1" + gap + "0"
             && Shown(ts[p], b, k) == "1" + gap + "1" && Shown(ts[q], b, k) == "0"
    ensures Name(ts, a, j) == Name(ts, b, k)
  {
    hide Name, Expand, Shown, Count, AllKnown, Still, Once;
    KnownPart(ts, p, q);
    NameParts(ts, p, q, a, j, fields);
    NameParts(ts, p, q, b, k, fields);
    var i, i' := Times(j, Count(ts, D)), Times(k, Count(ts, D));
    PartsAlike(ts, p, q, fields, a, b, j, k, i, i', date);
    GapAlike(ts, p, q, fields, base, a, j, i + Count(ts[..p + 1], D), date);
    GapAlike(ts, p, q, fields, base, b, k, i' + Count(ts[..p + 1], D), date);
    var gap := Expand(ts[p + 1..q], base, 0, 0);
    SplitText(Expand(ts[..p], a, j, i), gap,
              Expand(ts[q + 1..], a, j + Count(ts[..q + 1], N), i + Count(ts[..q + 1], D)));
  }

  lemma SplitText(front: string, gap: string, back: string)
    ensures front + "1" + gap + ("1" + gap + "0") + back == front + ("1" + gap + "1") + gap + "0" + back
  {
  }

  lemma PartsAlike(ts: seq<Token>, p: nat, q: nat, fields: set<Token>, a: Env, b: Env, j: nat, k: nat,
                   i: nat, i': nat, date: string)
    requires p < q < |ts| && ts[p] in fields && ts[q] in fields
    requires AllKnown(ts[..p]) && AllKnown(ts[q + 1..]) && Fields(fields) && Once(ts, fields)
    requires Still(a, date) && Still(b, date) && a.modulus == b.modulus && ElseAlike(ts[p], ts[q], a, b, j, k)
    ensures Expand(ts[..p], a, j, i) == Expand(ts[..p], b, k, i')
    ensures var n, d := Count(ts[..q + 1], N), Count(ts[..q + 1], D);
            Expand(ts[q + 1..], a, j + n, i + d) == Expand(ts[q + 1..], b, k + n, i' + d)
  {
    hide Expand, Count, AllKnown, Still;
    OnlyAt(ts, p);
    OnlyAt(ts, q);
    var n, d := Count(ts[..q + 1], N), Count(ts[..q + 1], D);
    assert forall t <- ts[..p] :: t in ts[..q];
    assert ts[q + 1..] == ts[p + 1..][q - p..];
    FixedText(ts[..p], a, b, j, k, i, i', date);
    FixedText(ts[q + 1..], a, b, j + n, k + n, i + d, i' + d, date);
  }

  lemma GapAlike(ts: seq<Token>, p: nat, q: nat, fields: set<Token>, base: Env, a: Env, j: nat, i: nat, date: string)
    requires p < q < |ts| && ts[p] in fields && ts[q] in fields
    requires AllKnown(ts[p + 1..q]) && Fields(fields) && Once(ts, fields)
    requires Still(base, date) && Still(a, date) && ElseAlike(ts[p], ts[q], a, base, j, 0)
    ensures Expand(ts[p + 1..q], a, j + Count(ts[..p + 1], N), i) == Expand(ts[p + 1..q], base, 0, 0)
  {
    hide Expand, Count, AllKnown, Still;
    OnlyAt(ts, p);
    OnlyAt(ts, q);
    var gap := ts[p + 1..q];
    assert forall t <- gap :: t in ts[p + 1..] && t in ts[..q];
    assert N in fields;
    if N in gap {
      MiddleOnce(ts, p, q);
    }
    FixedText(gap, a, base, j + Count(ts[..p + 1], N), 0, i, 0, date);
  }

  lemma MiddleOnce(ts: seq<Token>, p: nat, q: nat)
    requires p < q < |ts| && Count(ts, N) == 1 && N in ts[p + 1..q]
    ensures Count(ts[p + 1..q], N) == 1 && Count(ts[..p + 1], N) == 0
  {
    hide Count;
    assert ts == ts[..p + 1] + (ts[p + 1..q] + ts[q..]);
    CountConcat(ts[..p + 1], ts[p + 1..q] + ts[q..], N);
    CountConcat(ts[p + 1..q], ts[q..], N);
    CountPositive(ts[p + 1..q], N);
  }

  // --- patterns with one file number and any number of channels ---

  function NonDigits(s: string): nat {
    if s == [] then 0 else NonDigits(s[..|s| - 1]) + (if IsDigit(s[|s| - 1]) then 0 else 1)
  }

  lemma {:induction false} NonDigitsConcat(s: string, t: string)
    ensures NonDigits(s + t) == NonDigits(s) + NonDigits(t)
  {
    if t == [] {
      assert s + t == s;
    } else {
      assert (s + t)[..|s + t| - 1] == s + t[..|t| - 1];
      NonDigitsConcat(s, t[..|t| - 1]);
    }
  }

  lemma {:induction false} NoNonDigits(s: string)
    ensures NonDigits(s) == 0 <==> Digits(s)
  {
    if s != [] {
      var n := |s| - 1;
      assert s == s[..n] + [s[n]];
      NoNonDigits(s[..n]);
    }
  }

  lemma {:induction false} NonDigitsAligned(s: string, t: string)
    requires Aligned(s, t)
    ensures NonDigits(s) == NonDigits(t)
  {
    if s != [] {
      NonDigitsAligned(s[..|s| - 1], t[..|t| - 1]);
    }
  }

  lemma {:induction false} SameNonDigits(ts: seq<Token>, a: Env, b: Env, m: nat, n: nat, i: nat, j: nat,
                                         fields: set<Token>, date: string)
    requires AllKnown(ts) && Siblings(a, b, fields, date)
    ensures NonDigits(Expand(ts, a, m, i)) == NonDigits(Expand(ts, b, n, j))
  {
    hide Expand, Count, Piece, Siblings, AllKnown, Breaks;
    if ts == [] {
      ExpandNone(a, m, i);
      ExpandNone(b, n, j);
    } else {
      var front, t := ts[..|ts| - 1], ts[|ts| - 1];
      KnownFront(ts);
      ExpandSnoc(ts, a, m, i);
      ExpandSnoc(ts, b, n, j);
      var p := Piece(t, a, m + Count(front, N), i + Count(front, D));
      var q := Piece(t, b, n + Count(front, N), j + Count(front, D));
      PieceShapes(t, a, b, m + Count(front, N), n + Count(front, N), i + Count(front, D), j + Count(front, D),
                  fields, date);
      NonDigitsConcat(Expand(front, a, m, i), p);
      NonDigitsConcat(Expand(front, b, n, j), q);
      SameNonDigits(front, a, b, m, n, i, j, fields, date);
      if t in fields {
        NoNonDigits(p);
        NoNonDigits(q);
      } else {
        NonDigitsAligned(p, q);
      }
    }
  }

  /** Starts of one text with equally many characters that are not digits, and equally many digits after them. */
  lemma SameStart(s: string, u: string, t: string, v: string)
    requires s + u == t + v && NonDigits(s) == NonDigits(t) && TrailingDigits(s) == TrailingDigits(t)
    ensures s == t && u == v
  {
    if |s| < |t| {
      LongerStart(s, u, t, v);
    } else if |t| < |s| {
      LongerStart(t, v, s, u);
    } else {
      assert |s + u| == |t + v|;
      CancelBack(s, u, t, v);
    }
  }

  lemma LongerStart(s: string, u: string, t: string, v: string)
    requires s + u == t + v && |s| < |t|
    ensures NonDigits(s) != NonDigits(t) || TrailingDigits(s) != TrailingDigits(t)
  {
    var w := t[|s|..];
    assert t[..|s|] == (t + v)[..|s|] == (s + u)[..|s|] == s;
    assert t == s + w;
    NonDigitsConcat(s, w);
    NoNonDigits(w);
    TrailingConcat(s, w);
  }

  /** In equal names every break is at the same place. */
  lemma BreakAligns(ts: seq<Token>, l: nat, a: Env, b: Env, m: nat, n: nat, i: nat, j: nat,
                    fields: set<Token>, date: string)
    requires AllKnown(ts) && Siblings(a, b, fields, date) && Expand(ts, a, m, i) == Expand(ts, b, n, j)
    requires l < |ts| && Breaks(ts[l], date)
    ensures AllKnown(ts[..l + 1]) && AllKnown(ts[l + 1..])
    ensures Expand(ts[..l + 1], a, m, i) == Expand(ts[..l + 1], b, n, j)
    ensures var f, d := Count(ts[..l + 1], N), Count(ts[..l + 1], D);
            Expand(ts[l + 1..], a, m + f, i + d) == Expand(ts[l + 1..], b, n + f, j + d)
  {
    hide Expand, Count, Piece, Reads, Known, Breaks;
    var f, d := Count(ts[..l + 1], N), Count(ts[..l + 1], D);
    ExpandAt(ts, l, a, m, i);
    ExpandAt(ts, l, b, n, j);
    SameNonDigits(ts[..l + 1], a, b, m, n, i, j, fields, date);
    BreakTail(ts[..l + 1], a, b, m, n, i, j, fields, date);
    SameStart(Expand(ts[..l + 1], a, m, i), Expand(ts[l + 1..], a, m + f, i + d),
              Expand(ts[..l + 1], b, n, j), Expand(ts[l + 1..], b, n + f, j + d));
  }

  lemma BreakTail(ts: seq<Token>, a: Env, b: Env, m: nat, n: nat, i: nat, j: nat, fields: set<Token>, date: string)
    requires AllKnown(ts) && Siblings(a, b, fields, date) && ts != [] && Breaks(ts[|ts| - 1], date)
    ensures TrailingDigits(Expand(ts, a, m, i)) == TrailingDigits(Expand(ts, b, n, j))
  {
    hide Expand, Count, Piece, Breaks, AllKnown;
    FreshLast(ts, fields, date);
    FreshTail(ts, a, b, m, n, i, j, fields, date);
  }

  lemma FreshLast(ts: seq<Token>, fields: set<Token>, date: string)
    requires ts != [] && Breaks(ts[|ts| - 1], date) && Fields(fields)
    ensures Fresh(ts, fields, date)
  {
    LastBreaks(ts, fields, date);
  }

  lemma PartNotLonger(ts: seq<Token>, a: Env, b: Env, m: nat, n: nat, i: nat, j: nat, k: nat, date: string)
    requires AllKnown(ts) && Siblings(a, b, {C, N}, date) && a.chid <= b.chid && N !in ts && k < |ts|
    ensures |Pieces(ts, a, m, i)| == |Pieces(ts, b, n, j)| == |ts|
    ensures |Pieces(ts, a, m, i)[k]| <= |Pieces(ts, b, n, j)[k]|
    ensures ts[k] == C ==> Pieces(ts, a, m, i)[k] == Decimal(a.chid) && Pieces(ts, b, n, j)[k] == Decimal(b.chid)
  {
    hide Pieces, Count, Decimal, Reads;
    var f, d := Count(ts[..k], N), Count(ts[..k], D);
    PieceAt(ts, k, a, m, i);
    PieceAt(ts, k, b, n, j);
    assert ts[k] in ts;
    PieceShapes(ts[k], a, b, m + f, n + f, i + d, j + d, {C, N}, date);
    DecimalLonger(a.chid, b.chid);
  }

  /** A part that shows the channel and no file number tells the channel. */
  lemma OnlyChannel(ts: seq<Token>, a: Env, b: Env, m: nat, n: nat, i: nat, j: nat, date: string)
    requires AllKnown(ts) && Siblings(a, b, {C, N}, date) && a.chid <= b.chid && N !in ts && C in ts
    requires Expand(ts, a, m, i) == Expand(ts, b, n, j)
    ensures a.chid == b.chid
  {
    hide Pieces, Piece, Count, Decimal, Siblings;
    var x, y := Pieces(ts, a, m, i), Pieces(ts, b, n, j);
    var p :| 0 <= p < |ts| && ts[p] == C;
    PartNotLonger(ts, a, b, m, n, i, j, p, date);
    forall k | 0 <= k < |ts| ensures |x[k]| <= |y[k]| {
      PartNotLonger(ts, a, b, m, n, i, j, k, date);
    }
    SamePieces(x, y);
    DecimalInjective(a.chid, b.chid);
  }

  /** Between `p` and `q` there is a token that breaks. */
  predicate Cut(ts: seq<Token>, p: nat, q: nat, date: string) {
    exists i :: 0 <= i < |ts| && (p < i < q || q < i < p) && Breaks(ts[i], date)
  }

  lemma OneSide(ts: seq<Token>, p: nat, q: nat, a: Env, b: Env, j: nat, k: nat, date: string)
    requires AllKnown(ts) && p < |ts| && q < |ts| && ts[p] == C && ts[q] == N && Count(ts, N) == 1
    requires Cut(ts, p, q, date) && Siblings(a, b, {C, N}, date) && a.chid <= b.chid
    requires Name(ts, a, j) == Name(ts, b, k)
    ensures a.chid == b.chid
  {
    hide Expand, Count, Piece, Siblings, Breaks;
    var l :| 0 <= l < |ts| && (p < l < q || q < l < p) && Breaks(ts[l], date);
    var c, d := Count(ts, N), Count(ts, D);
    var m, n, i, i' := Times(j, c), Times(k, c), Times(j, d), Times(k, d);
    var f, g := Count(ts[..l + 1], N), Count(ts[..l + 1], D);
    BreakAligns(ts, l, a, b, m, n, i, i', {C, N}, date);
    OnlyAt(ts, q);
    if p < l {
      assert ts[..l + 1] == ts[..q][..l + 1] && ts[..l + 1][p] == C;
      OnlyChannel(ts[..l + 1], a, b, m, n, i, i', date);
    } else {
      assert ts[l + 1..] == ts[q + 1..][l - q..] && ts[l + 1..][p - l - 1] == C;
      OnlyChannel(ts[l + 1..], a, b, m + f, n + f, i + g, i' + g, date);
    }
  }

  /** One "%c" that is cut off from the only "%n" keeps the names of all channels apart. */
  lemma CutNeverMeet(ts: seq<Token>, p: nat, q: nat, a: Env, b: Env, date: string)
    requires AllKnown(ts) && p < |ts| && q < |ts| && ts[p] == C && ts[q] == N && Count(ts, N) == 1
    requires Cut(ts, p, q, date) && Siblings(a, b, {C, N}, date) && a.chid != b.chid
    ensures NeverMeet(ts, a, b)
  {
    hide Name, Cut, Reads;
    forall j: nat, k: nat ensures Name(ts, a, j) != Name(ts, b, k) {
      if Name(ts, a, j) == Name(ts, b, k) {
        if a.chid < b.chid {
          OneSide(ts, p, q, a, b, j, k, date);
        } else {
          OneSide(ts, p, q, b, a, k, j, date);
        }
      }
    }
  }

  /** With one "%n" and any number of "%c", the channels of a run keep apart exactly when something other than digits
      cuts some "%c" off from the "%n". */
  lemma ChannelsApartIff(ts: seq<Token>, q: nat, run: nat, date: string)
    requires AllKnown(ts) && q < |ts| && ts[q] == N && Count(ts, N) == 1 && C in ts
    ensures AllApart(ts, {C, N}, run, date) <==> exists p :: 0 <= p < |ts| && ts[p] == C && Cut(ts, p, q, date)
  {
    hide Name, Cut, Count;
    if p :| 0 <= p < |ts| && ts[p] == C && Cut(ts, p, q, date) {
      forall a: Env, b: Env | Different(a, b, {C, N}, run, date) ensures NeverMeet(ts, a, b) {
        CutNeverMeet(ts, p, q, a, b, date);
      }
    } else {
      UncutMeet(ts, q, run, date);
    }
  }

  lemma {:induction false} FromFirst(ts: seq<Token>) returns (f: nat)
    ensures f <= |ts| && C !in ts[..f] && (f < |ts| ==> ts[f] == C)
  {
    if ts == [] || ts[0] == C {
      f := 0;
    } else {
      f := FromFirst(ts[1..]);
      f := f + 1;
      assert ts[..f] == [ts[0]] + ts[1..][..f - 1];
    }
  }

  lemma {:induction false} ToLast(ts: seq<Token>) returns (e: nat)
    ensures e <= |ts| && C !in ts[e..] && (e > 0 ==> ts[e - 1] == C)
  {
    if ts == [] || ts[|ts| - 1] == C {
      e := |ts|;
    } else {
      e := ToLast(ts[..|ts| - 1]);
      assert ts[e..] == ts[..|ts| - 1][e..] + [ts[|ts| - 1]];
    }
  }

  lemma UncutMeet(ts: seq<Token>, q: nat, run: nat, date: string)
    requires AllKnown(ts) && q < |ts| && ts[q] == N && Count(ts, N) == 1 && C in ts
    requires forall p :: 0 <= p < |ts| && ts[p] == C ==> !Cut(ts, p, q, date)
    ensures !AllApart(ts, {C, N}, run, date)
  {
    hide Count, AllApart, AllKnown, Cut, Breaks, Around;
    var before, after := ts[..q], ts[q + 1..];
    var f := FromFirst(before);
    var e := ToLast(after);
    OnlyAt(ts, q);
    assert ts == before + [N] + after;
    KnownSides(ts, q);
    UncutLeft(ts, f, q, date);
    UncutRight(ts, q, e, date);
    assert before[f..] == ts[f..q];
    CutAround(before, after, f, e);
    AroundMeet(before[..f], before[f..], after[..e], after[e..], run, date);
  }

  lemma KnownSides(ts: seq<Token>, q: nat)
    requires AllKnown(ts) && q < |ts|
    ensures AllKnown(ts[..q]) && AllKnown(ts[q + 1..])
  {
  }

  lemma CutAround(before: seq<Token>, after: seq<Token>, f: nat, e: nat)
    requires AllKnown(before) && AllKnown(after) && N !in before && N !in after && (C in before || C in after)
    requires f <= |before| && C !in before[..f] && (f < |before| ==> before[f] == C)
    requires e <= |after| && C !in after[e..] && (e > 0 ==> after[e - 1] == C)
    ensures Around(before[..f], before[f..], after[..e], after[e..])
    ensures before[..f] + before[f..] == before && after[..e] + after[e..] == after
  {
    hide Known;
    assert before[..f] + before[f..] == before && after[..e] + after[e..] == after;
  }

  lemma UncutLeft(ts: seq<Token>, f: nat, q: nat, date: string)
    requires f <= q < |ts| && (f < q ==> ts[f] == C && !Cut(ts, f, q, date))
    ensures forall t <- ts[f..q] :: !Breaks(t, date)
  {
    forall t <- ts[f..q] ensures !Breaks(t, date) {
      var i :| f <= i < q && ts[i] == t;
    }
  }

  lemma UncutRight(ts: seq<Token>, q: nat, e: nat, date: string)
    requires q < q + e < |ts| || (e == 0 && q < |ts|)
    requires e > 0 ==> ts[q + e] == C && !Cut(ts, q + e, q, date)
    ensures forall t <- ts[q + 1..][..e] :: !Breaks(t, date)
  {
    forall t <- ts[q + 1..][..e] ensures !Breaks(t, date) {
      var i :| q < i <= q + e && ts[i] == t;
    }
  }

  predicate Around(front: seq<Token>, left: seq<Token>, right: seq<Token>, back: seq<Token>) {
    && AllKnown(front) && AllKnown(left) && AllKnown(right) && AllKnown(back)
    && N !in front && N !in left && N !in right && N !in back && C !in front && C !in back
    && (left != [] ==> left[0] == C) && (right != [] ==> right[|right| - 1] == C) && left + right != []
  }

  function Text(ts: seq<Token>, chid: nat, run: nat, date: string): string
    requires AllKnown(ts)
  {
    Expand(ts, On(chid, run, 1, date), 0, 0)
  }

  lemma TextOf(ts: seq<Token>, chid: nat, run: nat, date: string, modulus: Positive, m: nat, i: nat)
    requires AllKnown(ts) && N !in ts
    ensures Expand(ts, On(chid, run, modulus, date), m, i) == Text(ts, chid, run, date)
  {
    FixedText(ts, On(chid, run, modulus, date), On(chid, run, 1, date), m, 0, i, 0, date);
  }

  lemma NameAround(front: seq<Token>, left: seq<Token>, right: seq<Token>, back: seq<Token>,
                   chid: nat, run: nat, modulus: Positive, date: string, k: nat)
    requires Around(front, left, right, back) && k < modulus
    ensures var ts := (front + left) + [N] + (right + back);
            && AllKnown(ts)
            && Name(ts, On(chid, run, modulus, date), k)
               == Text(front, 0, run, date) + Text(left, chid, run, date) + Decimal(k)
                  + (Text(right, chid, run, date) + Text(back, 0, run, date))
  {
    hide Expand, Decimal, Count, AllKnown, Text;
    var env := On(chid, run, modulus, date);
    var before, after := front + left, right + back;
    var ts := before + [N] + after;
    AroundCounts(front, left, right, back);
    TimesOne(k);
    var i := Times(k, Count(ts, D));
    var m, d, e := k + Count(before + [N], N), i + Count(before, D), i + Count(before + [N], D);
    assert (before + [N])[..|before|] == before;
    ExpandConcat(front, left, env, k, i);
    ExpandConcat(right, back, env, m, e);
    KnownSnoc(before);
    ExpandSnoc(before + [N], env, k, i);
    ExpandConcat(before + [N], after, env, k, i);
    TextOf(front, chid, run, date, modulus, k, i);
    TextOf(left, chid, run, date, modulus, k + Count(front, N), i + Count(front, D));
    TextOf(right, chid, run, date, modulus, m, e);
    TextOf(back, chid, run, date, modulus, m + Count(right, N), e + Count(right, D));
    SameFor(front, chid, run, date);
    SameFor(back, chid, run, date);
  }

  lemma KnownSnoc(ts: seq<Token>)
    requires AllKnown(ts)
    ensures AllKnown(ts + [N])
  {
  }

  lemma SameFor(ts: seq<Token>, chid: nat, run: nat, date: string)
    requires AllKnown(ts) && N !in ts && C !in ts
    ensures Text(ts, chid, run, date) == Text(ts, 0, run, date)
  {
    FixedText(ts, On(chid, run, 1, date), On(0, run, 1, date), 0, 0, 0, 0, date);
  }

  lemma AroundCounts(front: seq<Token>, left: seq<Token>, right: seq<Token>, back: seq<Token>)
    requires Around(front, left, right, back)
    ensures Count(front + left, N) == 0 && Count((front + left) + [N] + (right + back), N) == 1
  {
    hide Count, AllKnown;
    CountPositive(front + left, N);
    CountPositive(right + back, N);
    CountSnoc(front + left, N, N);
    CountConcat((front + left) + [N], right + back, N);
  }

  /** What begins with a channel grows at its end. */
  lemma GrowsRight(ts: seq<Token>, chid: nat, run: nat, date: string, u: string, v: string) returns (rest: string)
    requires AllKnown(ts) && N !in ts && (forall t <- ts :: !Breaks(t, date)) && (ts != [] ==> ts[0] == C)
    requires u == Text(ts, 1, run, date) && Decimal(chid) == u + "1" + v
    ensures Text(ts, chid, run, date) == u + rest && Digits(rest) && (rest == "" || rest[0] == '1')
  {
    hide Expand, Decimal, Text, Digits;
    if ts == [] {
      NoText(chid, run, date);
      NoText(1, run, date);
      rest := "";
      NoDigits();
    } else {
      var more := TextStarts(ts, chid, run, date);
      rest := "1" + v + more;
      TextDigits(ts, chid, run, date);
      assert u + "1" + v + more == u + rest;
      Tail(u, rest);
    }
  }

  /** What ends with a channel grows at its start. */
  lemma GrowsLeft(ts: seq<Token>, chid: nat, run: nat, date: string, u: string, v: string) returns (rest: string)
    requires AllKnown(ts) && N !in ts && (forall t <- ts :: !Breaks(t, date)) && (ts != [] ==> ts[|ts| - 1] == C)
    requires v == Text(ts, 1, run, date) && Decimal(chid) == u + "1" + v
    ensures Text(ts, chid, run, date) == rest + v && Digits(rest)
  {
    hide Expand, Decimal, Text, Digits;
    if ts == [] {
      NoText(chid, run, date);
      NoText(1, run, date);
      rest := "";
      NoDigits();
    } else {
      var more := TextEnds(ts, chid, run, date);
      rest := more + u + "1";
      TextDigits(ts, chid, run, date);
      assert more + (u + "1" + v) == rest + v;
      Tail(rest, v);
    }
  }

  lemma NoDigits()
    ensures Digits("")
  {
  }

  lemma NoText(chid: nat, run: nat, date: string)
    ensures Text([], chid, run, date) == ""
  {
    ExpandNone(On(chid, run, 1, date), 0, 0);
  }

  lemma Tail(u: string, v: string)
    requires Digits(u + v)
    ensures Digits(u) && Digits(v)
  {
    forall c <- u ensures IsDigit(c) {
      assert c in u + v;
    }
    forall c <- v ensures IsDigit(c) {
      assert c in u + v;
    }
  }

  lemma TextDigits(ts: seq<Token>, chid: nat, run: nat, date: string)
    requires AllKnown(ts) && forall t <- ts :: !Breaks(t, date)
    ensures Digits(Text(ts, chid, run, date))
  {
    hide Expand;
    UnbrokenDigits(ts, On(chid, run, 1, date), 0, 0, date);
  }

  lemma TextStarts(ts: seq<Token>, chid: nat, run: nat, date: string) returns (more: string)
    requires AllKnown(ts) && N !in ts && ts != [] && ts[0] == C
    ensures Text(ts, chid, run, date) == Decimal(chid) + more
  {
    hide Expand, Decimal;
    var env := On(chid, run, 1, date);
    assert ts[..1] == [C] && [C][..0] == [] && ts[..0] == [];
    ExpandAt(ts, 0, env, 0, 0);
    ExpandNone(env, 0, 0);
    more := Expand(ts[1..], env, Count(ts[..1], N), Count(ts[..1], D));
  }

  lemma TextEnds(ts: seq<Token>, chid: nat, run: nat, date: string) returns (more: string)
    requires AllKnown(ts) && N !in ts && ts != [] && ts[|ts| - 1] == C
    ensures Text(ts, chid, run, date) == more + Decimal(chid)
  {
    hide Expand, Decimal;
    var env := On(chid, run, 1, date);
    ExpandSnoc(ts, env, 0, 0);
    more := Expand(ts[..|ts| - 1], env, 0, 0);
  }

  /** Channel 1 and a channel made of the texts around the file number meet. */
  lemma AroundMeet(front: seq<Token>, left: seq<Token>, right: seq<Token>, back: seq<Token>, run: nat, date: string)
    requires Around(front, left, right, back)
    requires (forall t <- left :: !Breaks(t, date)) && (forall t <- right :: !Breaks(t, date))
    ensures AllKnown((front + left) + [N] + (right + back))
    ensures !AllApart((front + left) + [N] + (right + back), {C, N}, run, date)
  {
    hide Expand, Decimal, Text, Digits, Name, Breaks, AllKnown, Value;
    var u, v := Text(left, 1, run, date), Text(right, 1, run, date);
    var chid := JoinedNumber(front, left, right, back, run, date);
    var rho := GrowsRight(left, chid, run, date, u, v);
    var sigma := GrowsLeft(right, chid, run, date, u, v);
    LeadingOne(rho, sigma);
    var k := Value(rho + "1" + sigma);
    ValueDecimal(rho + "1" + sigma);
    OneDigits();
    NameAround(front, left, right, back, 1, run, k + 2, date, k);
    NameAround(front, left, right, back, chid, run, k + 2, date, 1);
    Regroup(Text(front, 0, run, date), u, rho, sigma, v, Text(back, 0, run, date));
    var ts := (front + left) + [N] + (right + back);
    var a, b := On(1, run, k + 2, date), On(chid, run, k + 2, date);
    assert Name(ts, a, k) == Name(ts, b, 1);
    assert Different(a, b, {C, N}, run, date) && !NeverMeet(ts, a, b);
  }

  lemma LeadingOne(rho: string, sigma: string)
    requires Digits(rho) && Digits(sigma) && (rho == "" || rho[0] == '1')
    ensures var s := rho + "1" + sigma; Digits(s) && s != [] && s[0] == '1'
  {
    forall c <- rho + "1" + sigma ensures IsDigit(c) {
      assert c in rho || c == '1' || c in sigma;
    }
  }

  lemma Regroup(front: string, u: string, rho: string, sigma: string, v: string, back: string)
    ensures front + u + (rho + "1" + sigma) + (v + back) == front + (u + rho) + "1" + ((sigma + v) + back)
  {
  }

  /** A channel whose number is the texts on both sides of the file number, for channel 1, with a "1" between them. */
  lemma JoinedNumber(front: seq<Token>, left: seq<Token>, right: seq<Token>, back: seq<Token>, run: nat, date: string)
      returns (chid: nat)
    requires Around(front, left, right, back)
    requires (forall t <- left :: !Breaks(t, date)) && (forall t <- right :: !Breaks(t, date))
    ensures chid != 1 && Decimal(chid) == Text(left, 1, run, date) + "1" + Text(right, 1, run, date)
  {
    hide Expand, Decimal, Text, Digits, Breaks, AllKnown, Value;
    var u, v := Text(left, 1, run, date), Text(right, 1, run, date);
    TextDigits(left, 1, run, date);
    TextDigits(right, 1, run, date);
    OneDigits();
    if left == [] {
      NoText(1, run, date);
    } else {
      var more := TextStarts(left, 1, run, date);
    }
    if right != [] {
      var more := TextEnds(right, 1, run, date);
    }
    LeadingOne(u, v);
    chid := Value(u + "1" + v);
    ValueDecimal(u + "1" + v);
    assert |u + "1" + v| > 1;
  }

  // --- a channel and a file number next to each other ---

  /** No two of the first `channels` channels of a run ever share a name, with file numbers below `modulus`. */
  ghost predicate FirstApart(ts: seq<Token>, channels: nat, modulus: Positive, run: nat, date: string)
    requires AllKnown(ts)
  {
    forall a: Env, b: Env :: Different(a, b, {C, N}, run, date) && InRange(a, b, channels, modulus) ==>
      NeverMeet(ts, a, b)
  }

  predicate InRange(a: Env, b: Env, channels: nat, modulus: Positive) {
    a.modulus == b.modulus == modulus && a.chid < channels && b.chid < channels
  }

  lemma {:induction false} WrapBelow(n: nat, modulus: Positive)
    ensures Wrap(n, modulus) < modulus
  {
    if n >= modulus {
      WrapBelow(n - modulus, modulus);
    }
  }

  /** Two different ways to cut one text into two numbers need a first number from 11 on and a second one from 10 on. */
  lemma TwoCuts(u: nat, v: nat, x: nat, y: nat)
    requires Decimal(u) + Decimal(v) == Decimal(x) + Decimal(y) && |Decimal(u)| < |Decimal(x)|
    ensures x >= 11 && v >= 10
  {
    hide Decimal;
    NoLeadingZero(u);
    NoLeadingZero(v);
    NoLeadingZero(x);
    TwoDigits();
    Overlap(Decimal(u), Decimal(v), Decimal(x), Decimal(y));
  }

  lemma Overlap(s: string, t: string, p: string, q: string)
    requires s + t == p + q && s != [] && q != [] && |s| < |p|
    ensures |t| > 1 && t[0] == p[|s|] && s[0] == p[0]
  {
    assert |s + t| == |p + q|;
    assert (s + t)[|s|] == t[0] && (p + q)[|s|] == p[|s|] && (s + t)[0] == s[0] && (p + q)[0] == p[0];
  }

  lemma TwoNumbers(u: nat, v: nat, x: nat, y: nat)
    requires Decimal(u) + Decimal(v) == Decimal(x) + Decimal(y) && (u != x || v != y)
    ensures u != x && v != y && ((x >= 11 && v >= 10) || (u >= 11 && y >= 10))
  {
    hide Decimal;
    if |Decimal(u)| < |Decimal(x)| {
      TwoCuts(u, v, x, y);
    } else if |Decimal(x)| < |Decimal(u)| {
      TwoCuts(x, y, u, v);
    } else {
      assert |Decimal(u) + Decimal(v)| == |Decimal(x) + Decimal(y)|;
      CancelBack(Decimal(u), Decimal(v), Decimal(x), Decimal(y));
      DecimalInjective(u, x);
      DecimalInjective(v, y);
    }
  }

  predicate NextTo(ts: seq<Token>, p: nat) {
    Once(ts, {C, N}) && p + 1 < |ts| && {ts[p], ts[p + 1]} == {C, N}
  }

  /** With "%c" and "%n" next to each other: exactly as long as the number that comes first does not pass 10 or the
      other one keeps to one digit. */
  lemma NeighboursIff(ts: seq<Token>, p: nat, channels: nat, modulus: Positive, run: nat, date: string)
    requires AllKnown(ts) && NextTo(ts, p)
    ensures var (first, second) := if ts[p] == C then (channels, modulus) else (modulus, channels);
            FirstApart(ts, channels, modulus, run, date) <==> first <= 11 || second <= 10
  {
    hide Name, Once, Different;
    var (first, second) := if ts[p] == C then (channels, modulus) else (modulus, channels);
    if first <= 11 || second <= 10 {
      forall a: Env, b: Env | Different(a, b, {C, N}, run, date) && InRange(a, b, channels, modulus)
        ensures NeverMeet(ts, a, b)
      {
        forall j: nat, k: nat ensures Name(ts, a, j) != Name(ts, b, k) {
          if Name(ts, a, j) == Name(ts, b, k) {
            MeetingNumbers(ts, p, a, b, j, k, run, date);
          }
        }
      }
    } else {
      EleventhMeets(ts, p, channels, modulus, run, date);
    }
  }

  lemma {:induction false} SameLength(ts: seq<Token>, a: Env, b: Env, m: nat, n: nat, i: nat, j: nat,
                                      fields: set<Token>, date: string)
    requires AllKnown(ts) && Siblings(a, b, fields, date) && forall t <- ts :: t !in fields
    ensures |Expand(ts, a, m, i)| == |Expand(ts, b, n, j)|
  {
    hide Expand, Count, Piece, Siblings, AllKnown, Breaks;
    if ts == [] {
      ExpandNone(a, m, i);
      ExpandNone(b, n, j);
    } else {
      var front, t := ts[..|ts| - 1], ts[|ts| - 1];
      assert ts == front + [t];
      KnownFront(ts);
      ExpandSnoc(ts, a, m, i);
      ExpandSnoc(ts, b, n, j);
      PieceShapes(t, a, b, m + Count(front, N), n + Count(front, N), i + Count(front, D), j + Count(front, D),
                  fields, date);
      SameLength(front, a, b, m, n, i, j, fields, date);
    }
  }

  /** A name of neighbours around both numbers. */
  lemma NextParts(ts: seq<Token>, p: nat, a: Env, j: nat)
    requires AllKnown(ts) && NextTo(ts, p)
    ensures var i := Times(j, Count(ts, D));
            Name(ts, a, j)
            == Expand(ts[..p], a, j, i) + (Shown(ts[p], a, j) + Shown(ts[p + 1], a, j))
               + Expand(ts[p + 2..], a, j + Count(ts[..p + 2], N), i + Count(ts[..p + 2], D))
  {
    hide Expand, Name, Shown, Count, AllKnown, Once;
    NameParts(ts, p, p + 1, a, j, {C, N});
    assert ts[p + 1..p + 1] == [];
    ExpandNone(a, j + Count(ts[..p + 1], N), Times(j, Count(ts, D)) + Count(ts[..p + 1], D));
  }

  lemma SameMiddle(front: string, u: string, back: string, front': string, v: string, back': string)
    requires front + u + back == front' + v + back' && |front| == |front'| && |back| == |back'|
    ensures u == v
  {
    CancelBack(front + u, back, front' + v, back');
    assert |u| == |v|;
    CancelBack(front, u, front', v);
  }

  lemma ShownMeet(ts: seq<Token>, p: nat, a: Env, b: Env, j: nat, k: nat, date: string)
    requires AllKnown(ts) && NextTo(ts, p) && Siblings(a, b, {C, N}, date) && Name(ts, a, j) == Name(ts, b, k)
    ensures Shown(ts[p], a, j) + Shown(ts[p + 1], a, j) == Shown(ts[p], b, k) + Shown(ts[p + 1], b, k)
  {
    hide Expand, Name, Shown, Count, Siblings;
    NextParts(ts, p, a, j);
    NextParts(ts, p, b, k);
    OnlyAt(ts, p);
    OnlyAt(ts, p + 1);
    assert ts[..p + 1][..p] == ts[..p] && ts[p + 1..][1..] == ts[p + 2..];
    var i, i' := Times(j, Count(ts, D)), Times(k, Count(ts, D));
    var n, d := Count(ts[..p + 2], N), Count(ts[..p + 2], D);
    SameLength(ts[..p], a, b, j, k, i, i', {C, N}, date);
    SameLength(ts[p + 2..], a, b, j + n, k + n, i + d, i' + d, {C, N}, date);
    SameMiddle(Expand(ts[..p], a, j, i), Shown(ts[p], a, j) + Shown(ts[p + 1], a, j),
               Expand(ts[p + 2..], a, j + n, i + d),
               Expand(ts[..p], b, k, i'), Shown(ts[p], b, k) + Shown(ts[p + 1], b, k),
               Expand(ts[p + 2..], b, k + n, i' + d));
  }

  lemma MeetingNumbers(ts: seq<Token>, p: nat, a: Env, b: Env, j: nat, k: nat, run: nat, date: string)
    requires AllKnown(ts) && NextTo(ts, p) && Different(a, b, {C, N}, run, date) && Name(ts, a, j) == Name(ts, b, k)
    ensures var m, n := Wrap(j, a.modulus), Wrap(k, a.modulus);
            && m < a.modulus && n < a.modulus
            && if ts[p] == C then (b.chid >= 11 && m >= 10) || (a.chid >= 11 && n >= 10)
               else (n >= 11 && a.chid >= 10) || (m >= 11 && b.chid >= 10)
  {
    hide Name, Wrap, Decimal, Once;
    ShownMeet(ts, p, a, b, j, k, date);
    WrapBelow(j, a.modulus);
    WrapBelow(k, a.modulus);
    var m, n := Wrap(j, a.modulus), Wrap(k, a.modulus);
    assert N != C && R != N;
    if ts[p] == C {
      assert ts[p + 1] == N;
      TwoNumbers(a.chid, m, b.chid, n);
    } else {
      assert ts[p] == N && ts[p + 1] == C;
      TwoNumbers(m, a.chid, n, b.chid);
    }
  }

  /** The first name of channel 11 is the eleventh of channel 1; where the file number comes first, the second one of
      channel 10 is the twelfth of channel 0. */
  lemma EleventhMeets(ts: seq<Token>, p: nat, channels: nat, modulus: Positive, run: nat, date: string)
    requires AllKnown(ts) && NextTo(ts, p)
    requires if ts[p] == C then channels > 11 && modulus > 10 else modulus > 11 && channels > 10
    ensures !FirstApart(ts, channels, modulus, run, date)
  {
    hide Name, Decimal, Once;
    if ts[p] == C {
      FirstMeets(ts, p, modulus, run, date);
      assert !NeverMeet(ts, On(1, run, modulus, date), On(11, run, modulus, date));
    } else {
      SecondMeets(ts, p, modulus, run, date);
      assert !NeverMeet(ts, On(0, run, modulus, date), On(10, run, modulus, date));
    }
  }

  lemma FirstMeets(ts: seq<Token>, p: nat, modulus: Positive, run: nat, date: string)
    requires AllKnown(ts) && NextTo(ts, p) && ts[p] == C && modulus > 10
    ensures Name(ts, On(1, run, modulus, date), 10) == Name(ts, On(11, run, modulus, date), 0)
  {
    hide Expand, Name, Decimal, Once;
    NextMeet(ts, p, On(1, run, modulus, date), On(11, run, modulus, date), 10, 0, date);
  }

  lemma SecondMeets(ts: seq<Token>, p: nat, modulus: Positive, run: nat, date: string)
    requires AllKnown(ts) && NextTo(ts, p) && ts[p] != C && modulus > 11
    ensures Name(ts, On(10, run, modulus, date), 1) == Name(ts, On(0, run, modulus, date), 11)
  {
    hide Expand, Name, Decimal, Once;
    assert N != C && N != R && ts[p] == N && ts[p + 1] == C;
    NextMeet(ts, p, On(10, run, modulus, date), On(0, run, modulus, date), 1, 11, date);
  }

  /** "1" and "10" read like "11" and "0". */
  lemma NextMeet(ts: seq<Token>, p: nat, a: Env, b: Env, j: nat, k: nat, date: string)
    requires AllKnown(ts) && NextTo(ts, p) && Still(a, date) && Still(b, date)
    requires a.modulus == b.modulus && a.run == b.run
    requires Shown(ts[p], a, j) == Decimal(1) && Shown(ts[p + 1], a, j) == Decimal(10)
    requires Shown(ts[p], b, k) == Decimal(11) && Shown(ts[p + 1], b, k) == Decimal(0)
    ensures Name(ts, a, j) == Name(ts, b, k)
  {
    hide Expand, Name, Decimal, Once, Shown, Still;
    OneDigits();
    TwoDigits();
    var base := On(0, a.run, 1, date);
    assert ts[p + 1..p + 1] == [];
    ExpandNone(base, 0, 0);
    assert Still(base, date) by {
      StillOn(0, a.run, 1, date);
    }
    Meet(ts, p, p + 1, {C, N}, base, a, b, j, k, date);
  }

  lemma StillOn(chid: nat, run: nat, modulus: Positive, date: string)
    ensures Still(On(chid, run, modulus, date), date)
  {
  }

  lemma TwoDigits()
    ensures Decimal(10) == "10" && Decimal(11) == "11"
  {
  }

  /** A pattern that the configuration check accepts, and two channels whose files overwrite each other. */
  lemma AcceptedPatternMeets(modulus: Positive, run: nat, date: string)
    requires modulus > 10
    ensures var ts := Tokens("%c%n%r%D");
            && (forall c <- ['n', 'c', 'D', 'r'] :: Argument(c) in ts) && AllKnown(ts)
            && Name(ts, On(1, run, modulus, date), 10) == Name(ts, On(11, run, modulus, date), 0)
  {
    hide Name, Tokens;
    FourTokens();
    FourFields([C, N, R, D]);
    FirstMeets([C, N, R, D], 0, modulus, run, date);
  }

  lemma FourTokens()
    ensures Tokens("%c%n%r%D") == [C, N, R, D]
  {
    var pattern, second, third, fourth := "%c%n%r%D", "%n%r%D", "%r%D", "%D";
    assert pattern[2..] == second && second[2..] == third && third[2..] == fourth && fourth[2..] == [];
    assert Tokens(fourth) == [D];
    assert Tokens(third) == [R, D];
    assert Tokens(second) == [N, R, D];
  }

  lemma FourFields(ts: seq<Token>)
    requires ts == [C, N, R, D]
    ensures (forall c <- ['n', 'c', 'D', 'r'] :: Argument(c) in ts) && AllKnown(ts) && NextTo(ts, 0)
  {
    assert ts[0] == C && ts[1] == N && ts[2] == R && ts[3] == D;
    assert ts[..1] == [C] && ts[..2] == [C] + [N] && ts[..3] == ts[..2] + [R] && ts == ts[..3] + [D];
    forall t <- {C, N} ensures Count(ts, t) == 1 {
      CountSnoc([C], N, t);
      CountSnoc(ts[..2], R, t);
      CountSnoc(ts[..3], D, t);
    }
  }
}
