/**
 * The tokeniser of sqlvalidator/grammar/tokeniser.py.
 *
 * `to_tokens` is a stack of generator flat-maps: split on `'`, then on `"`,
 * then on a back-quote (each time keeping the quote as a token and passing the
 * text between a pair of quotes through untouched), then on spaces
 * (dropped), then on the nine punctuation characters (kept), lower-casing
 * whatever is left. It is modelled here as pure functions in that same
 * layered shape, and proved equal, on quote-free text, to a one-pass
 * character scanner `Scan` that serves as an independent reference.
 *
 * The two cursor scans the parser uses are while-loops over a shared
 * iterator in the source; they are methods here, proved against the
 * functions `UntilClosingParenthesis` and `UntilOneOf` that the parser calls.
 */
module Tokeniser {
  import opened Basics

  type Token = string

  // ======================================================== str.split(c)

  /** The length of the longest prefix of `s` with no character from `stop`. */
  function RunLength(s: string, stop: set<char>): (n: nat)
    ensures n <= |s|
    ensures forall i :: 0 <= i < n ==> s[i] !in stop
    ensures n < |s| ==> s[n] in stop
  {
    if s == [] || s[0] in stop then 0 else 1 + RunLength(s[1..], stop)
  }

  lemma {:induction false} RunLengthConcat(p: string, q: string, stop: set<char>)
    requires forall i :: 0 <= i < |p| ==> p[i] !in stop
    requires q == [] || q[0] in stop
    ensures RunLength(p + q, stop) == |p|
  {
    if p != [] {
      assert (p + q)[1..] == p[1..] + q;
      RunLengthConcat(p[1..], q, stop);
    } else {
      assert p + q == q;
    }
  }

  /** Python's `s.split(c)` for a one-character separator: the pieces between
      occurrences of `c`, empty pieces included. */
  function Split(s: string, c: char): (r: seq<string>)
    ensures |r| >= 1
    decreases |s|
  {
    var i := RunLength(s, {c});
    if i == |s| then [s] else [s[..i]] + Split(s[i + 1..], c)
  }

  /** No piece of `s.split(c)` contains `c`. */
  lemma {:induction false} SplitPieces(s: string, c: char)
    ensures forall i :: 0 <= i < |Split(s, c)| ==> c !in Split(s, c)[i]
    decreases |s|
  {
    var i := RunLength(s, {c});
    if i < |s| {
      SplitPieces(s[i + 1..], c);
    }
  }

  /** Joining the pieces of `s.split(c)` with `c` gives `s` back. */
  lemma {:induction false} SplitJoin(s: string, c: char)
    ensures Join([c], Split(s, c)) == s
    decreases |s|
  {
    var i := RunLength(s, {c});
    if i < |s| {
      SplitJoin(s[i + 1..], c);
      AroundIndex(s, i);
    }
  }

  /** A text is what comes before position `i`, the character there, and what comes after. */
  lemma AroundIndex(s: string, i: nat)
    requires i < |s|
    ensures s == s[..i] + [s[i]] + s[i + 1..]
    ensures s == s[..i] + ([s[i]] + s[i + 1..])
  {
  }

  // ======================================================== split_with_sep

  function NonEmpty(w: string): seq<string>
  {
    if w == "" then [] else [w]
  }

  /** The generator body of `split_with_sep`: every piece but the last is
      followed by the separator, and empty pieces are skipped. */
  function EmitPieces(words: seq<string>, c: char): seq<string>
    requires |words| >= 1
  {
    if |words| == 1 then NonEmpty(words[0])
    else NonEmpty(words[0]) + [[c]] + EmitPieces(words[1..], c)
  }

  /** `split_with_sep(s, sep)` for a one-character separator. */
  function SplitWithSep(s: string, c: char): seq<string>
  {
    EmitPieces(Split(s, c), c)
  }

  // ======================================================== reference scanner

  /**
   * Reference tokenisation, character by character: every character of
   * `keep` is a token of its own, every character of `drop` separates tokens
   * and is discarded, and every maximal run of other characters is one token.
   */
  function Scan(s: string, keep: set<char>, drop: set<char>): (r: seq<string>)
    decreases |s|
  {
    if s == [] then []
    else if s[0] in keep then [[s[0]]] + Scan(s[1..], keep, drop)
    else if s[0] in drop then Scan(s[1..], keep, drop)
    else
      var n := RunLength(s, keep + drop);
      [s[..n]] + Scan(s[n..], keep, drop)
  }

  /** The shape of every token the reference scanner yields. */
  predicate ScanToken(t: string, keep: set<char>, drop: set<char>)
  {
    t != "" && ((|t| == 1 && t[0] in keep) || forall i :: 0 <= i < |t| ==> t[i] !in keep && t[i] !in drop)
  }

  /** `s` with every character of `drop` removed. */
  function RemoveChars(s: string, drop: set<char>): (r: string)
  {
    if s == [] then [] else (if s[0] in drop then [] else [s[0]]) + RemoveChars(s[1..], drop)
  }

  lemma {:induction false} RemoveCharsConcat(a: string, b: string, drop: set<char>)
    ensures RemoveChars(a + b, drop) == RemoveChars(a, drop) + RemoveChars(b, drop)
  {
    if a == [] {
      assert a + b == b;
    } else {
      assert (a + b)[1..] == a[1..] + b;
      RemoveCharsConcat(a[1..], b, drop);
    }
  }

  lemma {:induction false} RemoveCharsNone(a: string, drop: set<char>)
    requires forall i :: 0 <= i < |a| ==> a[i] !in drop
    ensures RemoveChars(a, drop) == a
  {
    if a != [] {
      RemoveCharsNone(a[1..], drop);
    }
  }

  /** Every token of the reference scanner is non-empty and is a single kept
      character or free of kept and dropped characters; gluing the tokens back
      together gives the input without its dropped characters. */
  lemma {:induction false} ScanShape(s: string, keep: set<char>, drop: set<char>)
    requires keep !! drop
    ensures forall i :: 0 <= i < |Scan(s, keep, drop)| ==> ScanToken(Scan(s, keep, drop)[i], keep, drop)
    ensures Concat(Scan(s, keep, drop)) == RemoveChars(s, drop)
    decreases |s|
  {
    if s == [] {
    } else if s[0] in keep {
      ScanShape(s[1..], keep, drop);
    } else if s[0] in drop {
      ScanShape(s[1..], keep, drop);
    } else {
      var n := RunLength(s, keep + drop);
      ScanShape(s[n..], keep, drop);
      assert s == s[..n] + s[n..];
      RemoveCharsConcat(s[..n], s[n..], drop);
      RemoveCharsNone(s[..n], drop);
    }
  }

  /** The scanner is compositional at a separator boundary. */
  lemma {:induction false} ScanConcat(p: string, q: string, keep: set<char>, drop: set<char>)
    requires q == [] || q[0] in keep || q[0] in drop
    ensures Scan(p + q, keep, drop) == Scan(p, keep, drop) + Scan(q, keep, drop)
    decreases |p|
  {
    if p == [] {
      assert p + q == q;
    } else if p[0] in keep || p[0] in drop {
      var pq := p + q;
      assert pq[0] == p[0] && pq[1..] == p[1..] + q;
      ScanConcat(p[1..], q, keep, drop);
      if p[0] in keep {
        assert Scan(pq, keep, drop) == [[p[0]]] + Scan(p[1..] + q, keep, drop);
        assert Scan(p, keep, drop) == [[p[0]]] + Scan(p[1..], keep, drop);
      } else {
        assert Scan(pq, keep, drop) == Scan(p[1..] + q, keep, drop);
        assert Scan(p, keep, drop) == Scan(p[1..], keep, drop);
      }
    } else {
      var n := RunLength(p, keep + drop);
      if n < |p| {
        ScanConcatRun(p, q, keep, drop);
        ScanConcat(p[n..], q, keep, drop);
      } else {
        ScanConcatWhole(p, q, keep, drop);
      }
    }
  }

  lemma ScanConcatRun(p: string, q: string, keep: set<char>, drop: set<char>)
    requires p != [] && p[0] !in keep && p[0] !in drop
    requires RunLength(p, keep + drop) < |p|
    ensures var n := RunLength(p, keep + drop);
      Scan(p + q, keep, drop) == [p[..n]] + Scan(p[n..] + q, keep, drop)
  {
    var n := RunLength(p, keep + drop);
    assert p == p[..n] + p[n..];
    assert p + q == p[..n] + (p[n..] + q);
    RunLengthConcat(p[..n], p[n..] + q, keep + drop);
    assert (p + q)[..n] == p[..n];
    assert (p + q)[n..] == p[n..] + q;
  }

  lemma ScanConcatWhole(p: string, q: string, keep: set<char>, drop: set<char>)
    requires p != [] && p[0] !in keep && p[0] !in drop
    requires RunLength(p, keep + drop) == |p|
    requires q == [] || q[0] in keep || q[0] in drop
    ensures Scan(p + q, keep, drop) == Scan(p, keep, drop) + Scan(q, keep, drop)
  {
    var n := |p|;
    RunLengthConcat(p, q, keep + drop);
    assert p[..n] == p;
    assert Scan(p, keep, drop) == [p];
    assert (p + q)[..n] == p;
    assert (p + q)[n..] == q;
  }

  /** Characters that do not occur make no difference to the scanner. */
  lemma {:induction false} ScanAbsent(s: string, keep: set<char>, drop: set<char>, extra: set<char>)
    requires forall i :: 0 <= i < |s| ==> s[i] !in extra
    ensures Scan(s, keep + extra, drop) == Scan(s, keep, drop)
    ensures Scan(s, keep, drop + extra) == Scan(s, keep, drop)
    decreases |s|
  {
    if s != [] {
      if s[0] in keep || s[0] in drop {
        ScanAbsent(s[1..], keep, drop, extra);
      } else {
        var n := RunLength(s, keep + drop);
        RunLengthAbsent(s, keep + drop, extra);
        assert keep + extra + drop == keep + drop + extra;
        assert keep + (drop + extra) == keep + drop + extra;
        ScanAbsent(s[n..], keep, drop, extra);
      }
    }
  }

  lemma {:induction false} RunLengthAbsent(s: string, stop: set<char>, extra: set<char>)
    requires forall i :: 0 <= i < |s| ==> s[i] !in extra
    ensures RunLength(s, stop + extra) == RunLength(s, stop)
  {
    if s != [] {
      RunLengthAbsent(s[1..], stop, extra);
    }
  }

  /** A non-empty run of ordinary characters is a single token. */
  lemma ScanPlain(s: string, keep: set<char>, drop: set<char>)
    requires s != []
    requires forall i :: 0 <= i < |s| ==> s[i] !in keep && s[i] !in drop
    ensures Scan(s, keep, drop) == [s]
  {
    RunLengthConcat(s, [], keep + drop);
    assert s + [] == s;
    assert s[..|s|] == s;
  }

  /** Concatenated scans of each piece. */
  function ScanAll(ps: seq<string>, keep: set<char>, drop: set<char>): seq<string>
  {
    if ps == [] then [] else Scan(ps[0], keep, drop) + ScanAll(ps[1..], keep, drop)
  }

  lemma {:induction false} ScanAllAppend(xs: seq<string>, ys: seq<string>, keep: set<char>, drop: set<char>)
    ensures ScanAll(xs + ys, keep, drop) == ScanAll(xs, keep, drop) + ScanAll(ys, keep, drop)
  {
    if xs == [] {
      assert xs + ys == ys;
    } else {
      assert (xs + ys)[1..] == xs[1..] + ys;
      ScanAllAppend(xs[1..], ys, keep, drop);
    }
  }

  /** `split_with_sep` agrees with the reference scanner that keeps its separator. */
  lemma {:induction false} SplitWithSepIsScan(s: string, c: char)
    ensures SplitWithSep(s, c) == Scan(s, {c}, {})
    decreases |s|
  {
    var i := RunLength(s, {c});
    if i == |s| {
      if s != [] {
        ScanPlain(s, {c}, {});
      }
    } else {
      var a, rest := s[..i], s[i + 1..];
      SplitWithSepIsScan(rest, c);
      AroundIndex(s, i);
      SplitWithSepCons(a, rest, c);
      ScanCons(a, rest, c);
    }
  }

  /** The scan on `{c}` of a piece without `c`, then `c`, then more text. */
  lemma ScanCons(a: string, rest: string, c: char)
    requires c !in a
    ensures Scan(a + [c] + rest, {c}, {}) == NonEmpty(a) + [[c]] + Scan(rest, {c}, {})
  {
    AssocCons(a, c, rest);
    ScanKept(c, rest, {c}, {});
    ScanConcat(a, [c] + rest, {c}, {});
    if a != [] {
      ScanPlain(a, {c}, {});
    }
  }

  lemma AssocCons(a: string, c: char, rest: string)
    ensures a + [c] + rest == a + ([c] + rest)
  {
  }

  /** A dropped character in front is skipped. */
  lemma ScanDropped(c: char, q: string, keep: set<char>, drop: set<char>)
    requires c !in keep && c in drop
    ensures Scan([c] + q, keep, drop) == Scan(q, keep, drop)
  {
    assert ([c] + q)[0] == c && ([c] + q)[1..] == q;
  }

  /** A kept character in front is a token of its own. */
  lemma ScanKept(c: char, q: string, keep: set<char>, drop: set<char>)
    requires c in keep
    ensures Scan([c] + q, keep, drop) == [[c]] + Scan(q, keep, drop)
  {
    assert ([c] + q)[0] == c;
    assert ([c] + q)[1..] == q;
  }

  /** Splitting on a dropped character first, then scanning each piece, is
      scanning with that character dropped. */
  lemma {:induction false} SplitThenScan(s: string, d: char, keep: set<char>, drop: set<char>)
    requires d !in keep
    ensures ScanAll(Split(s, d), keep, drop) == Scan(s, keep, drop + {d})
    decreases |s|
  {
    var i := RunLength(s, {d});
    ScanAbsent(s[..i], keep, drop, {d});
    if i == |s| {
      assert s[..i] == s;
    } else {
      var rest := s[i + 1..];
      SplitThenScan(rest, d, keep, drop);
      AroundIndex(s, i);
      ScanDropped(d, rest, keep, drop + {d});
      ScanConcat(s[..i], [d] + rest, keep, drop + {d});
    }
  }

  /** Scanning with `k1`, then scanning every token with `k2`, is scanning
      with both. */
  lemma {:induction false} ScanRefine(s: string, k1: set<char>, k2: set<char>)
    ensures ScanAll(Scan(s, k1, {}), k2, {}) == Scan(s, k1 + k2, {})
    decreases |s|
  {
    if s == [] {
    } else if s[0] in k1 {
      ScanRefine(s[1..], k1, k2);
      assert Scan([s[0]], k2, {}) == [[s[0]]] by {
        if s[0] !in k2 {
          ScanPlain([s[0]], k2, {});
        }
      }
    } else {
      var n := RunLength(s, k1 + {});
      assert k1 + {} == k1;
      ScanRefine(s[n..], k1, k2);
      var p := s[..n];
      ScanAbsent(p, k2, {}, k1);
      assert k2 + k1 == k1 + k2;
      assert s == p + s[n..];
      ScanConcat(p, s[n..], k1 + k2, {});
      assert ScanAll([p] + Scan(s[n..], k1, {}), k2, {}) == Scan(p, k2, {}) + ScanAll(Scan(s[n..], k1, {}), k2, {});
    }
  }

  // ======================================================== to_tokens

  /** The separators of the innermost loops, in the order they are applied. */
  const Punctuation: seq<char> := [',', ';', '(', ')', '+', '-', '*', '/', '=']
  const PunctuationSet: set<char> := {',', ';', '(', ')', '+', '-', '*', '/', '='}

  function MapLower(ts: seq<string>): (r: seq<string>)
    ensures |r| == |ts|
    ensures forall i :: 0 <= i < |ts| ==> r[i] == Lower(ts[i])
  {
    if ts == [] then [] else [Lower(ts[0])] + MapLower(ts[1..])
  }

  lemma {:induction false} MapLowerAppend(xs: seq<string>, ys: seq<string>)
    ensures MapLower(xs + ys) == MapLower(xs) + MapLower(ys)
  {
    assert |MapLower(xs + ys)| == |MapLower(xs) + MapLower(ys)|;
    forall i | 0 <= i < |xs + ys| ensures MapLower(xs + ys)[i] == (MapLower(xs) + MapLower(ys))[i] {
    }
  }

  /** The nested `for w2 in split_with_sep(w1, ",") ... yield w10.lower()`
      loops, for the separators still to apply. */
  function Chain(w: string, seps: seq<char>): seq<Token>
    decreases |seps|, 0
  {
    if seps == [] then [Lower(w)] else ChainAll(SplitWithSep(w, seps[0]), seps[1..])
  }

  function ChainAll(ps: seq<string>, seps: seq<char>): seq<Token>
    decreases |seps|, |ps| + 1
  {
    if ps == [] then [] else Chain(ps[0], seps) + ChainAll(ps[1..], seps)
  }

  function SetOf(cs: seq<char>): set<char>
  {
    set i | 0 <= i < |cs| :: cs[i]
  }

  lemma {:induction false} ChainAllIsScan(ps: seq<string>, seps: seq<char>)
    requires seps != []
    ensures ChainAll(ps, seps) == MapLower(ScanAll(ps, SetOf(seps), {}))
    decreases |seps|, |ps| + 1
  {
    if ps != [] {
      ChainIsScan(ps[0], seps);
      ChainAllIsScan(ps[1..], seps);
      MapLowerAppend(Scan(ps[0], SetOf(seps), {}), ScanAll(ps[1..], SetOf(seps), {}));
    }
  }

  /** The nested punctuation loops lower-case the tokens of the reference
      scanner that keeps all the punctuation characters. */
  lemma {:induction false} ChainIsScan(w: string, seps: seq<char>)
    requires seps != []
    ensures Chain(w, seps) == MapLower(Scan(w, SetOf(seps), {}))
    decreases |seps|, 0
  {
    var c := seps[0];
    SplitWithSepIsScan(w, c);
    var ps := Scan(w, {c}, {});
    assert SetOf(seps) == {c} + SetOf(seps[1..]) by {
      forall x | x in SetOf(seps) ensures x in {c} + SetOf(seps[1..]) {
        var i :| 0 <= i < |seps| && seps[i] == x;
        if i > 0 { assert seps[1..][i - 1] == x; }
      }
    }
    if |seps| == 1 {
      ChainAllEmpty(ps);
      assert SetOf(seps[1..]) == {};
      assert {c} + {} == {c};
    } else {
      ChainAllIsScan(ps, seps[1..]);
      ScanRefine(w, {c}, SetOf(seps[1..]));
    }
  }

  lemma {:induction false} ChainAllEmpty(ps: seq<string>)
    ensures ChainAll(ps, []) == MapLower(ps)
  {
    if ps != [] {
      ChainAllEmpty(ps[1..]);
    }
  }

  /** `for w1 in elem.split(" "): ...`: the part of `to_tokens` that runs
      outside every kind of quote. */
  function Words(e: string): seq<Token>
  {
    ChainAll(Split(e, ' '), Punctuation)
  }

  /** Outside quotes the tokeniser is the reference scanner that drops spaces
      and keeps each punctuation character, with every token lower-cased. */
  lemma WordsIsScan(e: string)
    ensures Words(e) == MapLower(Scan(e, PunctuationSet, {' '}))
  {
    assert SetOf(Punctuation) == PunctuationSet by {
      assert Punctuation[0] == ',' && Punctuation[1] == ';' && Punctuation[2] == '(';
      assert Punctuation[3] == ')' && Punctuation[4] == '+' && Punctuation[5] == '-';
      assert Punctuation[6] == '*' && Punctuation[7] == '/' && Punctuation[8] == '=';
    }
    ChainAllIsScan(Split(e, ' '), Punctuation);
    SplitThenScan(e, ' ', PunctuationSet, {});
    assert {} + {' '} == {' '};
  }

  /**
   * One quote layer of `to_tokens`: walk the pieces of `split_with_sep(text, q)`
   * with the `in_str` toggle. A quote toggles the state and is a token; a piece
   * inside quotes is a token as it is; a piece outside goes to the next layer.
   */
  function Layer(pieces: seq<string>, q: char, inStr: bool, outside: string -> seq<Token>): seq<Token>
  {
    if pieces == [] then []
    else if pieces[0] == [q] then [[q]] + Layer(pieces[1..], q, !inStr, outside)
    else if inStr then [pieces[0]] + Layer(pieces[1..], q, inStr, outside)
    else outside(pieces[0]) + Layer(pieces[1..], q, inStr, outside)
  }

  function BackQuoted(e: string): seq<Token>
  {
    Layer(SplitWithSep(e, '`'), '`', false, Words)
  }

  function DoubleQuoted(e: string): seq<Token>
  {
    Layer(SplitWithSep(e, '"'), '"', false, BackQuoted)
  }

  /** `to_tokens(value)`. */
  function ToTokens(value: string): seq<Token>
  {
    Layer(SplitWithSep(value, '\''), '\'', false, DoubleQuoted)
  }

  predicate NoEmptyToken(ts: seq<Token>)
  {
    forall i :: 0 <= i < |ts| ==> ts[i] != ""
  }

  lemma {:induction false} LayerNoEmpty(pieces: seq<string>, q: char, inStr: bool, outside: string -> seq<Token>)
    requires forall i :: 0 <= i < |pieces| ==> pieces[i] != ""
    requires forall e :: NoEmptyToken(outside(e))
    ensures NoEmptyToken(Layer(pieces, q, inStr, outside))
  {
    if pieces != [] {
      LayerNoEmpty(pieces[1..], q, if pieces[0] == [q] then !inStr else inStr, outside);
    }
  }

  lemma SplitWithSepNoEmpty(s: string, c: char)
    ensures forall i :: 0 <= i < |SplitWithSep(s, c)| ==> SplitWithSep(s, c)[i] != ""
  {
    SplitWithSepIsScan(s, c);
    ScanShape(s, {c}, {});
  }

  lemma WordsNoEmpty(e: string)
    ensures NoEmptyToken(Words(e))
  {
    WordsIsScan(e);
    ScanShape(e, PunctuationSet, {' '});
  }

  /** `to_tokens` never yields an empty token. */
  lemma ToTokensNoEmpty(value: string)
    ensures NoEmptyToken(ToTokens(value))
  {
    forall e ensures NoEmptyToken(Words(e)) { WordsNoEmpty(e); }
    forall e ensures NoEmptyToken(BackQuoted(e)) {
      SplitWithSepNoEmpty(e, '`');
      LayerNoEmpty(SplitWithSep(e, '`'), '`', false, Words);
    }
    forall e ensures NoEmptyToken(DoubleQuoted(e)) {
      SplitWithSepNoEmpty(e, '"');
      LayerNoEmpty(SplitWithSep(e, '"'), '"', false, BackQuoted);
    }
    SplitWithSepNoEmpty(value, '\'');
    LayerNoEmpty(SplitWithSep(value, '\''), '\'', false, DoubleQuoted);
  }

  // -------------------------------------------------- split_with_sep properties

  /** Concatenating the output of `split_with_sep` gives back the input. */
  lemma SplitWithSepConcat(s: string, c: char)
    ensures Concat(SplitWithSep(s, c)) == s
  {
    SplitWithSepIsScan(s, c);
    ScanShape(s, {c}, {});
    RemoveCharsNone(s, {});
  }

  /** Every piece of `split_with_sep` is non-empty, and is the separator or
      free of it. */
  lemma SplitWithSepPieces(s: string, c: char)
    ensures forall i :: 0 <= i < |SplitWithSep(s, c)| ==>
      SplitWithSep(s, c)[i] != "" && (SplitWithSep(s, c)[i] == [c] || c !in SplitWithSep(s, c)[i])
  {
    SplitWithSepIsScan(s, c);
    ScanShape(s, {c}, {});
  }

  function CountChar(s: string, c: char): nat
  {
    if s == [] then 0 else (if s[0] == c then 1 else 0) + CountChar(s[1..], c)
  }

  function CountToken(ts: seq<string>, t: string): nat
  {
    if ts == [] then 0 else (if ts[0] == t then 1 else 0) + CountToken(ts[1..], t)
  }

  lemma {:induction false} CountTokenAppend(xs: seq<string>, ys: seq<string>, t: string)
    ensures CountToken(xs + ys, t) == CountToken(xs, t) + CountToken(ys, t)
  {
    if xs == [] {
      assert xs + ys == ys;
    } else {
      assert (xs + ys)[1..] == xs[1..] + ys;
      CountTokenAppend(xs[1..], ys, t);
    }
  }

  lemma {:induction false} CountCharAppend(a: string, b: string, c: char)
    ensures CountChar(a + b, c) == CountChar(a, c) + CountChar(b, c)
  {
    if a == [] {
      assert a + b == b;
    } else {
      assert (a + b)[1..] == a[1..] + b;
      CountCharAppend(a[1..], b, c);
    }
  }

  lemma {:induction false} CountCharNone(a: string, c: char)
    requires forall i :: 0 <= i < |a| ==> a[i] != c
    ensures CountChar(a, c) == 0
  {
    if a != [] {
      CountCharNone(a[1..], c);
    }
  }

  /** Each kept character is emitted once per occurrence. */
  lemma {:induction false} ScanCountKept(s: string, keep: set<char>, drop: set<char>, c: char)
    requires c in keep
    ensures CountToken(Scan(s, keep, drop), [c]) == CountChar(s, c)
    decreases |s|
  {
    if s == [] {
    } else if s[0] in keep || s[0] in drop {
      ScanCountKept(s[1..], keep, drop, c);
    } else {
      var n := RunLength(s, keep + drop);
      ScanCountKept(s[n..], keep, drop, c);
      assert s == s[..n] + s[n..];
      CountCharAppend(s[..n], s[n..], c);
      CountCharNone(s[..n], c);
      assert s[..n] != [c];
    }
  }

  /** `split_with_sep` emits the separator once per occurrence. */
  lemma SplitWithSepCount(s: string, c: char)
    ensures CountToken(SplitWithSep(s, c), [c]) == CountChar(s, c)
  {
    SplitWithSepIsScan(s, c);
    ScanCountKept(s, {c}, {}, c);
  }

  // -------------------------------------------------- quote-free text

  predicate QuoteFree(s: string)
  {
    forall i :: 0 <= i < |s| ==> s[i] != '\'' && s[i] != '"' && s[i] != '`'
  }

  lemma {:induction false} LayerWithoutQuote(e: string, q: char, outside: string -> seq<Token>)
    requires q !in e
    requires outside("") == []
    ensures Layer(SplitWithSep(e, q), q, false, outside) == outside(e)
  {
    SplitWithSepIsScan(e, q);
    if e != [] {
      ScanPlain(e, {q}, {});
      assert e != [q];
      assert Layer([e], q, false, outside) == outside(e) + [];
    }
  }

  lemma WordsEmpty()
    ensures Words("") == []
  {
    WordsIsScan("");
  }

  /** On text without quote characters `to_tokens` is the reference scanner:
      split on spaces, each punctuation character its own token, runs lower-cased. */
  lemma ToTokensQuoteFree(s: string)
    requires QuoteFree(s)
    ensures ToTokens(s) == Words(s) == MapLower(Scan(s, PunctuationSet, {' '}))
  {
    WordsEmpty();
    assert BackQuoted("") == [];
    assert DoubleQuoted("") == [];
    LayerWithoutQuote(s, '`', Words);
    LayerWithoutQuote(s, '"', BackQuoted);
    LayerWithoutQuote(s, '\'', DoubleQuoted);
    WordsIsScan(s);
  }

  /** Splitting words joined by a separator they do not contain gives them back. */
  lemma {:induction false} SplitOfJoin(ws: seq<string>, c: char)
    requires ws != []
    requires forall i :: 0 <= i < |ws| ==> c !in ws[i]
    ensures Split(Join([c], ws), c) == ws
    decreases |ws|
  {
    if |ws| == 1 {
      RunLengthConcat(ws[0], [], {c});
      assert ws[0] + [] == ws[0];
    } else {
      var rest := Join([c], ws[1..]);
      assert Join([c], ws) == ws[0] + ([c] + rest);
      RunLengthConcat(ws[0], [c] + rest, {c});
      assert (ws[0] + ([c] + rest))[..|ws[0]|] == ws[0];
      assert (ws[0] + ([c] + rest))[|ws[0]| + 1..] == rest;
      SplitOfJoin(ws[1..], c);
      assert [ws[0]] + ws[1..] == ws;
    }
  }

  lemma SpaceIsNotPunctuation()
    ensures ' ' !in PunctuationSet
  {
  }

  lemma {:induction false} QuoteFreeJoin(ws: seq<string>)
    requires forall i :: 0 <= i < |ws| ==> QuoteFree(ws[i])
    ensures QuoteFree(Join(" ", ws))
    decreases |ws|
  {
    if |ws| > 1 {
      QuoteFreeJoin(ws[1..]);
      var a := ws[0] + " ";
      var b := Join(" ", ws[1..]);
      assert QuoteFree(ws[0]);
      forall i | 0 <= i < |a + b| ensures (a + b)[i] != '\'' && (a + b)[i] != '"' && (a + b)[i] != '`' {
        if i < |ws[0]| { assert (a + b)[i] == ws[0][i]; }
        else if i > |ws[0]| { assert (a + b)[i] == b[i - |a|]; }
      }
    } else if |ws| == 1 {
      assert QuoteFree(ws[0]);
    }
  }

  /** Quote-free words joined by single spaces: each word is scanned on its own
      for punctuation, and the tokens are lower-cased. */
  lemma ToTokensSentence(ws: seq<string>)
    requires ws != []
    requires forall i :: 0 <= i < |ws| ==> ' ' !in ws[i] && QuoteFree(ws[i])
    ensures ToTokens(Join(" ", ws)) == MapLower(ScanAll(ws, PunctuationSet, {}))
  {
    var s := Join(" ", ws);
    QuoteFreeJoin(ws);
    ToTokensQuoteFree(s);
    SplitOfJoin(ws, ' ');
    SpaceIsNotPunctuation();
    SplitThenScan(s, ' ', PunctuationSet, {});
    assert {} + {' '} == {' '};
  }

  /**
   * Outside quotes: every token is non-empty, lower-case and free of spaces, and
   * is either one punctuation character or free of punctuation; together the
   * tokens spell the lower-cased input with its spaces removed (newlines are
   * not separators and stay inside tokens).
   */
  lemma ToTokensOutsideQuotes(s: string)
    requires QuoteFree(s)
    ensures forall i :: 0 <= i < |ToTokens(s)| ==> WordToken(ToTokens(s)[i])
    ensures Concat(ToTokens(s)) == Lower(RemoveChars(s, {' '}))
  {
    ToTokensQuoteFree(s);
    var raw := Scan(s, PunctuationSet, {' '});
    ScanShape(s, PunctuationSet, {' '});
    forall i | 0 <= i < |raw| ensures WordToken(Lower(raw[i])) {
      LowerScanToken(raw[i]);
    }
    ConcatMapLower(raw);
  }

  /** The shape of a token outside quotes. */
  predicate WordToken(t: string)
  {
    && t != "" && IsLowerCase(t) && ' ' !in t
    && ((|t| == 1 && t[0] in PunctuationSet) || forall k :: 0 <= k < |t| ==> t[k] !in PunctuationSet)
  }

  lemma LowerScanToken(t: string)
    requires ScanToken(t, PunctuationSet, {' '})
    ensures WordToken(Lower(t))
  {
    LowerIsLowerCase(t);
  }

  lemma {:induction false} ConcatMapLower(ts: seq<string>)
    ensures Concat(MapLower(ts)) == Lower(Concat(ts))
  {
    if ts != [] {
      ConcatMapLower(ts[1..]);
      LowerConcat(ts[0], Concat(ts[1..]));
      assert MapLower(ts) == [Lower(ts[0])] + MapLower(ts[1..]);
    }
  }

  /** Each punctuation character is emitted once per occurrence outside quotes. */
  lemma ToTokensPunctuationCount(s: string, c: char)
    requires QuoteFree(s)
    requires c in PunctuationSet
    ensures CountToken(ToTokens(s), [c]) == CountChar(s, c)
  {
    ToTokensQuoteFree(s);
    ScanCountKept(s, PunctuationSet, {' '}, c);
    CountTokenMapLower(Scan(s, PunctuationSet, {' '}), c);
  }

  lemma {:induction false} CountTokenMapLower(ts: seq<string>, c: char)
    requires !IsUpperChar(c) && !IsLowerChar(c)
    ensures CountToken(MapLower(ts), [c]) == CountToken(ts, [c])
  {
    if ts != [] {
      CountTokenMapLower(ts[1..], c);
      assert MapLower(ts) == [Lower(ts[0])] + MapLower(ts[1..]);
      assert Lower(ts[0]) == [c] <==> ts[0] == [c] by {
        if Lower(ts[0]) == [c] {
          assert |ts[0]| == 1;
          assert LowerChar(ts[0][0]) == c;
          assert !IsUpperChar(ts[0][0]);
          assert ts[0] == [ts[0][0]];
        }
      }
    }
  }

  // -------------------------------------------------- quoted text

  lemma {:induction false} SplitWithSepCons(a: string, rest: string, c: char)
    requires c !in a
    ensures SplitWithSep(a + [c] + rest, c) == NonEmpty(a) + [[c]] + SplitWithSep(rest, c)
  {
    var s := a + [c] + rest;
    RunLengthConcat(a, [c] + rest, {c});
    assert s == a + ([c] + rest);
    assert s[..|a|] == a;
    assert s[|a| + 1..] == rest;
    assert Split(s, c) == [a] + Split(rest, c);
  }

  lemma {:induction false} LayerAppend(xs: seq<string>, ys: seq<string>, q: char, inStr: bool, outside: string -> seq<Token>)
    requires forall i :: 0 <= i < |xs| ==> xs[i] != [q]
    ensures Layer(xs + ys, q, inStr, outside) == Layer(xs, q, inStr, outside) + Layer(ys, q, inStr, outside)
  {
    if xs == [] {
      assert xs + ys == ys;
    } else {
      assert (xs + ys)[1..] == xs[1..] + ys;
      LayerAppend(xs[1..], ys, q, inStr, outside);
    }
  }

  /**
   * One quote layer: text between a matching pair of quotes is one token,
   * verbatim (its case and spaces kept); each quote is a token of its own;
   * the text before goes to the next layer and the text after is tokenised
   * afresh, outside quotes.
   */
  lemma QuotedRun(a: string, b: string, c: string, q: char, outside: string -> seq<Token>)
    requires q !in a && q !in b
    ensures Layer(SplitWithSep(a + [q] + b + [q] + c, q), q, false, outside)
         == (if a == "" then [] else outside(a)) + [[q]] + NonEmpty(b) + [[q]]
            + Layer(SplitWithSep(c, q), q, false, outside)
  {
    QuotedPieces(a, b, c, q);
    LayerOfQuoted(NonEmpty(a), NonEmpty(b), SplitWithSep(c, q), q, outside);
    assert Layer(NonEmpty(a), q, false, outside) == (if a == "" then [] else outside(a));
    assert Layer(NonEmpty(b), q, true, outside) == NonEmpty(b);
  }

  lemma QuotedPieces(a: string, b: string, c: string, q: char)
    requires q !in a && q !in b
    ensures SplitWithSep(a + [q] + b + [q] + c, q) == NonEmpty(a) + ([[q]] + (NonEmpty(b) + ([[q]] + SplitWithSep(c, q))))
  {
    var tail := b + [q] + c;
    QuotedText(a, b, c, q);
    SplitWithSepCons(b, c, q);
    SplitWithSepCons(a, tail, q);
    RegroupRight(NonEmpty(a), [[q]], NonEmpty(b), [[q]], SplitWithSep(c, q));
  }

  lemma RegroupRight(a: seq<Token>, b: seq<Token>, c: seq<Token>, d: seq<Token>, e: seq<Token>)
    ensures a + b + (c + d + e) == a + (b + (c + (d + e)))
  {
  }

  lemma QuotedText(a: string, b: string, c: string, q: char)
    ensures a + [q] + b + [q] + c == a + [q] + (b + [q] + c)
  {
  }

  lemma LayerOfQuoted(xs: seq<string>, ys: seq<string>, zs: seq<string>, q: char, outside: string -> seq<Token>)
    requires forall i :: 0 <= i < |xs| ==> xs[i] != [q]
    requires forall i :: 0 <= i < |ys| ==> ys[i] != [q]
    ensures Layer(xs + ([[q]] + (ys + ([[q]] + zs))), q, false, outside)
         == Layer(xs, q, false, outside) + [[q]] + Layer(ys, q, true, outside) + [[q]] + Layer(zs, q, false, outside)
  {
    var lx := Layer(xs, q, false, outside);
    var ly := Layer(ys, q, true, outside);
    var lz := Layer(zs, q, false, outside);
    LayerThroughQuote(ys, zs, q, true, outside);
    LayerThroughQuote(xs, ys + ([[q]] + zs), q, false, outside);
    Regroup(lx, [[q]], ly, [[q]], lz);
  }

  lemma Regroup(a: seq<Token>, b: seq<Token>, c: seq<Token>, d: seq<Token>, e: seq<Token>)
    ensures a + (b + (c + (d + e))) == a + b + c + d + e
  {
  }

  /** Pieces without a quote, then a quote: the quote flips the state for what follows. */
  lemma LayerThroughQuote(xs: seq<string>, zs: seq<string>, q: char, inStr: bool, outside: string -> seq<Token>)
    requires forall i :: 0 <= i < |xs| ==> xs[i] != [q]
    ensures Layer(xs + ([[q]] + zs), q, inStr, outside)
         == Layer(xs, q, inStr, outside) + ([[q]] + Layer(zs, q, !inStr, outside))
  {
    LayerAppend(xs, [[q]] + zs, q, inStr, outside);
    LayerQuote(zs, q, inStr, outside);
  }

  lemma LayerQuote(xs: seq<string>, q: char, inStr: bool, outside: string -> seq<Token>)
    ensures Layer([[q]] + xs, q, inStr, outside) == [[q]] + Layer(xs, q, !inStr, outside)
  {
    assert ([[q]] + xs)[1..] == xs;
  }

  /** `to_tokens` keeps a single-quoted run verbatim as one token. */
  lemma ToTokensSingleQuoted(a: string, b: string, c: string)
    requires '\'' !in a && '\'' !in b
    ensures ToTokens(a + "'" + b + "'" + c)
         == (if a == "" then [] else DoubleQuoted(a)) + ["'"] + NonEmpty(b) + ["'"] + ToTokens(c)
  {
    QuotedRun(a, b, c, '\'', DoubleQuoted);
  }

  /** A double-quoted run between two pieces of quote-free text is one token. */
  lemma ToTokensDoubleQuoted(a: string, b: string, c: string)
    requires QuoteFree(a) && QuoteFree(c) && '"' !in b && '\'' !in b
    ensures ToTokens(a + "\"" + b + "\"" + c) == Words(a) + ["\""] + NonEmpty(b) + ["\""] + Words(c)
  {
    var s := a + "\"" + b + "\"" + c;
    assert '\'' !in s by {
      forall i | 0 <= i < |s| ensures s[i] != '\'' {
        if i < |a| { assert s[i] == a[i]; }
        else if i == |a| { }
        else if i < |a| + 1 + |b| { assert s[i] == b[i - |a| - 1]; }
        else if i == |a| + 1 + |b| { }
        else { assert s[i] == c[i - |a| - 2 - |b|]; }
      }
    }
    WordsEmpty();
    assert BackQuoted("") == [];
    assert DoubleQuoted("") == [];
    LayerWithoutQuote(s, '\'', DoubleQuoted);
    QuotedRun(a, b, c, '"', BackQuoted);
    ToTokensQuoteFree(a);
    ToTokensQuoteFree(c);
    LayerWithoutQuote(a, '`', Words);
    LayerWithoutQuote(c, '`', Words);
    LayerWithoutQuote(c, '"', BackQuoted);
  }

  /** A backquoted run between two pieces of quote-free text is one token. */
  lemma ToTokensBackQuoted(a: string, b: string, c: string)
    requires QuoteFree(a) && QuoteFree(c) && '`' !in b && '"' !in b && '\'' !in b
    ensures ToTokens(a + "`" + b + "`" + c) == Words(a) + ["`"] + NonEmpty(b) + ["`"] + Words(c)
  {
    var s := a + "`" + b + "`" + c;
    assert '\'' !in s && '"' !in s by {
      forall i | 0 <= i < |s| ensures s[i] != '\'' && s[i] != '"' {
        if i < |a| { assert s[i] == a[i]; }
        else if i == |a| { }
        else if i < |a| + 1 + |b| { assert s[i] == b[i - |a| - 1]; }
        else if i == |a| + 1 + |b| { }
        else { assert s[i] == c[i - |a| - 2 - |b|]; }
      }
    }
    WordsEmpty();
    LayerWithoutQuote(s, '\'', DoubleQuoted);
    LayerWithoutQuote(s, '"', BackQuoted);
    QuotedRun(a, b, c, '`', Words);
    LayerWithoutQuote(c, '`', Words);
  }

  // ======================================================== cursor scans

  /** The change of parenthesis depth a token makes. */
  function Delta(t: Token): int
  {
    if t == "(" then 1 else if t == ")" then -1 else 0
  }

  /** Number of `(` minus number of `)`. */
  function Depth(ts: seq<Token>): int
  {
    if ts == [] then 0 else Delta(ts[0]) + Depth(ts[1..])
  }

  lemma DepthCons(t: Token, ts: seq<Token>)
    ensures Depth([t] + ts) == Delta(t) + Depth(ts)
  {
    assert ([t] + ts)[0] == t && ([t] + ts)[1..] == ts;
  }

  lemma ConsAssoc(t: Token, a: seq<Token>, b: seq<Token>, c: seq<Token>)
    ensures [t] + a + b + c == [t] + (a + b + c)
  {
  }

  /** A result of `get_tokens_until_closing_parenthesis`: the tokens taken and
      the rest of the stream. */
  datatype Taken = Taken(tokens: seq<Token>, rest: seq<Token>)

  /** The loop of `get_tokens_until_closing_parenthesis` from parenthesis count `depth`. */
  function ClosingFrom(ts: seq<Token>, depth: nat): (r: Taken)
    ensures |r.tokens| + |r.rest| <= |ts|
  {
    if ts == [] then Taken([], [])
    else if ts[0] == ")" && depth == 0 then Taken([], ts[1..])
    else
      var d: nat := if ts[0] == "(" then depth + 1 else if ts[0] == ")" then depth - 1 else depth;
      var r := ClosingFrom(ts[1..], d);
      Taken([ts[0]] + r.tokens, r.rest)
  }

  lemma {:induction false} DepthPrefix(t: Token, xs: seq<Token>, k: nat)
    requires 1 <= k <= |xs| + 1
    ensures Depth(([t] + xs)[..k]) == Delta(t) + Depth(xs[..k - 1])
  {
    assert ([t] + xs)[..k] == [t] + xs[..k - 1];
  }

  /** The scan stops at the first `)` that closes nothing; everything before it
      stays balanced from `depth`. */
  lemma {:induction false} ClosingShape(ts: seq<Token>, depth: nat)
    ensures var r := ClosingFrom(ts, depth);
      && (|r.tokens| < |ts| ==> ts == r.tokens + [")"] + r.rest && depth + Depth(r.tokens) == 0)
      && (|r.tokens| == |ts| ==> r.tokens == ts && r.rest == [])
  {
    if ts == [] {
    } else if ts[0] == ")" && depth == 0 {
      assert ts == [] + [")"] + ts[1..];
    } else {
      var d: nat := if ts[0] == "(" then depth + 1 else if ts[0] == ")" then depth - 1 else depth;
      ClosingShape(ts[1..], d);
      ClosingCons(ts[0], ts[1..], depth, d, ClosingFrom(ts[1..], d));
      assert [ts[0]] + ts[1..] == ts;
    }
  }

  /** One token taken in front of a scan of the tail keeps its shape. */
  lemma ClosingCons(t: Token, tail: seq<Token>, depth: nat, d: nat, r: Taken)
    requires !(t == ")" && depth == 0) && d == depth + Delta(t)
    requires r == ClosingFrom(tail, d)
    requires |r.tokens| < |tail| ==> tail == r.tokens + [")"] + r.rest && d + Depth(r.tokens) == 0
    requires |r.tokens| == |tail| ==> r.tokens == tail && r.rest == []
    ensures var out := ClosingFrom([t] + tail, depth);
      && (|out.tokens| < 1 + |tail| ==> [t] + tail == out.tokens + [")"] + out.rest && depth + Depth(out.tokens) == 0)
      && (|out.tokens| == 1 + |tail| ==> out.tokens == [t] + tail && out.rest == [])
  {
    var ts := [t] + tail;
    assert ts[0] == t && ts[1..] == tail;
    var out := Taken([t] + r.tokens, r.rest);
    assert ClosingFrom(ts, depth) == out;
    if |r.tokens| < |tail| {
      DepthCons(t, r.tokens);
      ConsAssoc(t, r.tokens, [")"], r.rest);
    }
  }

  /** Starting from `depth` open parentheses, no prefix of `ts` closes more
      than are open. */
  predicate NeverBelow(ts: seq<Token>, depth: nat)
  {
    forall k :: 0 <= k <= |ts| ==> depth + Depth(ts[..k]) >= 0
  }

  lemma {:induction false} ClosingBalanced(ts: seq<Token>, depth: nat)
    ensures NeverBelow(ClosingFrom(ts, depth).tokens, depth)
  {
    if ts != [] && !(ts[0] == ")" && depth == 0) {
      var d: nat := if ts[0] == "(" then depth + 1 else if ts[0] == ")" then depth - 1 else depth;
      var r := ClosingFrom(ts[1..], d);
      ClosingBalanced(ts[1..], d);
      var out := ClosingFrom(ts, depth);
      assert out.tokens == [ts[0]] + r.tokens;
      forall k | 0 <= k <= |out.tokens| ensures depth + Depth(out.tokens[..k]) >= 0 {
        if k > 0 {
          DepthPrefix(ts[0], r.tokens, k);
          assert d == depth + Delta(ts[0]);
          assert NeverBelow(r.tokens, d);
          assert d + Depth(r.tokens[..k - 1]) >= 0;
        } else {
          assert out.tokens[..k] == [];
        }
      }
    }
  }

  /**
   * `get_tokens_until_closing_parenthesis(tokens)` as the parser uses it: the
   * tokens up to the first `)` that closes nothing, which is consumed but not
   * returned (or every token, at end of input). No prefix of the result has
   * more `)` than `(`, and when it stopped on a `)` the result is balanced.
   */
  function UntilClosingParenthesis(ts: seq<Token>): (r: Taken)
    ensures |r.tokens| + |r.rest| <= |ts|
    ensures |r.tokens| < |ts| ==> ts == r.tokens + [")"] + r.rest && Depth(r.tokens) == 0
    ensures |r.tokens| == |ts| ==> r.tokens == ts && r.rest == []
    ensures NeverBelow(r.tokens, 0)
  {
    ClosingShape(ts, 0);
    ClosingBalanced(ts, 0);
    ClosingFrom(ts, 0)
  }

  /** The while-loop of `get_tokens_until_closing_parenthesis`. */
  method GetTokensUntilClosingParenthesis(ts: seq<Token>) returns (argumentTokens: seq<Token>, rest: seq<Token>)
    ensures Taken(argumentTokens, rest) == UntilClosingParenthesis(ts)
  {
    argumentTokens := [];
    var i := 0;
    var countParenthesis: nat := 0;
    while i < |ts| && !(ts[i] == ")" && countParenthesis == 0)
      invariant 0 <= i <= |ts|
      invariant var r := ClosingFrom(ts[i..], countParenthesis);
        Taken(argumentTokens + r.tokens, r.rest) == ClosingFrom(ts, 0)
    {
      var d: nat := if ts[i] == "(" then countParenthesis + 1
                    else if ts[i] == ")" then countParenthesis - 1 else countParenthesis;
      ClosingTaken(argumentTokens, ts, i, countParenthesis, d);
      argumentTokens := argumentTokens + [ts[i]];
      countParenthesis := d;
      i := i + 1;
    }
    ClosingEnd(argumentTokens, ts, i, countParenthesis);
    rest := if i < |ts| then ts[i + 1..] else [];
  }

  /** One step of the loop of `get_tokens_until_closing_parenthesis`: taking
      the token at `i` keeps the tokens taken so far plus the rest of the
      scan equal to the whole scan. */
  lemma ClosingTaken(acc: seq<Token>, ts: seq<Token>, i: nat, depth: nat, d: nat)
    requires i < |ts| && !(ts[i] == ")" && depth == 0)
    requires d == if ts[i] == "(" then depth + 1 else if ts[i] == ")" then depth - 1 else depth
    ensures var r := ClosingFrom(ts[i..], depth);
      var next := ClosingFrom(ts[i + 1..], d);
      acc + r.tokens == (acc + [ts[i]]) + next.tokens && r.rest == next.rest
  {
    assert ts[i..][0] == ts[i] && ts[i..][1..] == ts[i + 1..];
    SnocAssoc(acc, ts[i], ClosingFrom(ts[i + 1..], d).tokens);
  }

  /** Where the loop of `get_tokens_until_closing_parenthesis` stops, the scan
      from there takes nothing more: the rest is what follows the closing
      parenthesis, or nothing at the end of the stream. */
  lemma ClosingEnd(acc: seq<Token>, ts: seq<Token>, i: nat, depth: nat)
    requires i <= |ts| && (i == |ts| || (ts[i] == ")" && depth == 0))
    ensures var r := ClosingFrom(ts[i..], depth);
      acc + r.tokens == acc && r.rest == (if i < |ts| then ts[i + 1..] else [])
  {
    if i < |ts| {
      assert ts[i..][0] == ts[i] && ts[i..][1..] == ts[i + 1..];
    } else {
      assert ts[i..] == [];
    }
    assert acc + [] == acc;
  }

  /** A result of `get_tokens_until_one_of`: the tokens taken, the token that
      stopped the scan (none at end of input) and the rest of the stream. */
  datatype Cut = Cut(tokens: seq<Token>, stop: Option<Token>, rest: seq<Token>)

  function StopSeq(stop: Option<Token>): seq<Token>
  {
    if stop.Some? then [stop.value] else []
  }

  /** The loop of `get_tokens_until_one_of`. */
  function CutAt(ts: seq<Token>, stopWords: seq<Token>): (r: Cut)
    ensures |r.tokens| + |StopSeq(r.stop)| + |r.rest| == |ts|
  {
    if ts == [] then Cut([], None, [])
    else if ts[0] in stopWords then Cut([], Some(ts[0]), ts[1..])
    else
      var r := CutAt(ts[1..], stopWords);
      Cut([ts[0]] + r.tokens, r.stop, r.rest)
  }

  lemma {:induction false} CutShape(ts: seq<Token>, stopWords: seq<Token>)
    ensures var r := CutAt(ts, stopWords);
      && ts == r.tokens + StopSeq(r.stop) + r.rest
      && (forall i :: 0 <= i < |r.tokens| ==> r.tokens[i] !in stopWords)
      && (r.stop.Some? ==> r.stop.value in stopWords)
      && (r.stop.None? ==> r.rest == [])
  {
    if ts != [] && ts[0] !in stopWords {
      CutShape(ts[1..], stopWords);
      var r := CutAt(ts[1..], stopWords);
      assert ts == [ts[0]] + (r.tokens + StopSeq(r.stop) + r.rest);
    }
  }

  /**
   * `get_tokens_until_one_of(tokens, stop_words)`: the longest prefix with no
   * stop word, then the stop word that follows it (or none at end of input),
   * then the rest of the stream.
   */
  function UntilOneOf(ts: seq<Token>, stopWords: seq<Token>): (r: Cut)
    ensures ts == r.tokens + StopSeq(r.stop) + r.rest
    ensures forall i :: 0 <= i < |r.tokens| ==> r.tokens[i] !in stopWords
    ensures r.stop.Some? ==> r.stop.value in stopWords
    ensures r.stop.None? ==> r.rest == []
  {
    CutShape(ts, stopWords);
    CutAt(ts, stopWords)
  }

  /** The variant with `first_token=`: a seed is read before the stream, and
      `None` means no seed. */
  function UntilOneOfSeeded(ts: seq<Token>, stopWords: seq<Token>, firstToken: Option<Token>): (r: Cut)
    ensures StopSeq(firstToken) + ts == r.tokens + StopSeq(r.stop) + r.rest
    ensures forall i :: 0 <= i < |r.tokens| ==> r.tokens[i] !in stopWords
    ensures r.stop.Some? ==> r.stop.value in stopWords
    ensures r.stop.None? ==> r.rest == []
  {
    UntilOneOf(StopSeq(firstToken) + ts, stopWords)
  }

  /** The while-loop of `get_tokens_until_one_of`, with the optional seed. */
  method GetTokensUntilOneOf(ts: seq<Token>, stopWords: seq<Token>, firstToken: Option<Token>)
    returns (argumentTokens: seq<Token>, nextToken: Option<Token>, rest: seq<Token>)
    ensures Cut(argumentTokens, nextToken, rest) == UntilOneOfSeeded(ts, stopWords, firstToken)
  {
    var stream := StopSeq(firstToken) + ts;
    argumentTokens := [];
    var i := 0;
    while i < |stream| && stream[i] !in stopWords
      invariant 0 <= i <= |stream|
      invariant var r := CutAt(stream[i..], stopWords);
        Cut(argumentTokens + r.tokens, r.stop, r.rest) == CutAt(stream, stopWords)
    {
      CutAtTaken(argumentTokens, stream, i, stopWords, CutAt(stream, stopWords));
      argumentTokens := argumentTokens + [stream[i]];
      i := i + 1;
    }
    CutAtEnd(argumentTokens, stream, i, stopWords, CutAt(stream, stopWords));
    if i < |stream| {
      nextToken := Some(stream[i]);
      rest := stream[i + 1..];
    } else {
      nextToken := None;
      rest := [];
    }
  }

  /** One more token that is not a stop word moves from the stream to the taken tokens. */
  lemma CutAtTaken(taken: seq<Token>, stream: seq<Token>, i: nat, stopWords: seq<Token>, whole: Cut)
    requires i < |stream| && stream[i] !in stopWords
    requires var r := CutAt(stream[i..], stopWords); Cut(taken + r.tokens, r.stop, r.rest) == whole
    ensures var r := CutAt(stream[i + 1..], stopWords); Cut((taken + [stream[i]]) + r.tokens, r.stop, r.rest) == whole
  {
    var r := CutAt(stream[i + 1..], stopWords);
    assert stream[i..][0] == stream[i] && stream[i..][1..] == stream[i + 1..];
    assert CutAt(stream[i..], stopWords) == Cut([stream[i]] + r.tokens, r.stop, r.rest);
    SnocAssoc(taken, stream[i], r.tokens);
  }

  /** At a stop word, or at the end of the stream, the cut is what the loop has. */
  lemma CutAtEnd(taken: seq<Token>, stream: seq<Token>, i: nat, stopWords: seq<Token>, whole: Cut)
    requires i <= |stream| && (i < |stream| ==> stream[i] in stopWords)
    requires var r := CutAt(stream[i..], stopWords); Cut(taken + r.tokens, r.stop, r.rest) == whole
    ensures i < |stream| ==> whole == Cut(taken, Some(stream[i]), stream[i + 1..])
    ensures i == |stream| ==> whole == Cut(taken, None, [])
  {
    assert taken + [] == taken;
    if i < |stream| {
      assert stream[i..][0] == stream[i] && stream[i..][1..] == stream[i + 1..];
    } else {
      assert stream[i..] == [];
    }
  }

  lemma SnocAssoc(a: seq<Token>, t: Token, b: seq<Token>)
    ensures (a + [t]) + b == a + ([t] + b)
  {
  }
}
