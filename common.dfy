/** Wrappers: `Option` stands for a JavaScript value that may be
    `null`/`undefined`, `Result` for an operation that either produces a value or
    reports one of the component's error messages. */
module Wrappers {

  datatype Option<+T> = None | Some(value: T) {
    /** The value, or `default` when absent (JavaScript's `x ?? default`). */
    function GetOr(default: T): T {
      if Some? then value else default
    }
  }

  datatype Result<+T, +E> = Ok(value: T) | Err(error: E)
}

/** Order-preserving filtering, the model of `Array.prototype.filter`. */
module Seqs {

  /** `a` can be obtained from `b` by deleting elements: the elements of `a`
      occur in `b` in the same order. */
  ghost predicate IsSubsequence<T>(a: seq<T>, b: seq<T>)
    decreases |b|
  {
    a == [] ||
    (b != [] && ((a[0] == b[0] && IsSubsequence(a[1..], b[1..])) || IsSubsequence(a, b[1..])))
  }

  /** `s.filter(p)`: the elements of `s` that satisfy `p`, in their order in `s`. */
  function Filter<T(!new)>(s: seq<T>, p: T -> bool): (r: seq<T>)
    ensures |r| <= |s|
    ensures forall i :: 0 <= i < |r| ==> p(r[i])
  {
    if s == [] then []
    else if p(s[0]) then [s[0]] + Filter(s[1..], p)
    else Filter(s[1..], p)
  }

  /** The kept elements stay in their original order. */
  lemma {:induction false} FilterIsSubsequence<T(!new)>(s: seq<T>, p: T -> bool)
    ensures IsSubsequence(Filter(s, p), s)
  {
    if s != [] {
      FilterIsSubsequence(s[1..], p);
      var rest := Filter(s[1..], p);
      if p(s[0]) {
        assert ([s[0]] + rest)[1..] == rest;
      } else if rest != [] {
        assert IsSubsequence(rest, s[1..]);
      }
    }
  }

  /** Every element that passes keeps its number of occurrences. */
  lemma {:induction false} FilterKeepsCount<T(!new)>(s: seq<T>, p: T -> bool, x: T)
    requires p(x)
    ensures multiset(Filter(s, p))[x] == multiset(s)[x]
  {
    if s != [] {
      FilterKeepsCount(s[1..], p, x);
      assert s == [s[0]] + s[1..];
    }
  }

  /** Filtering keeps a list unchanged exactly when every element passes. */
  lemma {:induction false} FilterKeepsAll<T(!new)>(s: seq<T>, p: T -> bool)
    ensures Filter(s, p) == s <==> forall i :: 0 <= i < |s| ==> p(s[i])
  {
    if s != [] {
      FilterKeepsAll(s[1..], p);
      var rest := Filter(s[1..], p);
      if !p(s[0]) {
        assert Filter(s, p) == rest;
        assert |rest| < |s|;
      } else {
        assert Filter(s, p) == [s[0]] + rest;
        if forall i :: 0 <= i < |s| ==> p(s[i]) {
          assert forall i :: 0 <= i < |s[1..]| ==> p(s[1..][i]);
          assert rest == s[1..];
          assert s == [s[0]] + s[1..];
        } else {
          var i :| 0 <= i < |s| && !p(s[i]);
          assert !p(s[1..][i - 1]);
          assert rest != s[1..];
          assert ([s[0]] + rest)[1..] == rest;
        }
      }
    }
  }

  /** An element is kept exactly when it is in the list and passes. */
  lemma {:induction false} FilterMembers<T(!new)>(s: seq<T>, p: T -> bool, x: T)
    ensures x in Filter(s, p) <==> x in s && p(x)
  {
    if s != [] {
      FilterMembers(s[1..], p, x);
      assert s == [s[0]] + s[1..];
    }
  }

  /** What a filter keeps and what its complement keeps add up to the whole list. */
  lemma {:induction false} FilterSplitsLength<T(!new)>(s: seq<T>, p: T -> bool)
    ensures |Filter(s, p)| + |Filter(s, x => !p(x))| == |s|
  {
    if s != [] {
      FilterSplitsLength(s[1..], p);
    }
  }

  /** Two tests that agree on every element of the list keep the same elements. */
  lemma {:induction false} FilterAgrees<T(!new)>(s: seq<T>, p: T -> bool, q: T -> bool)
    requires forall i :: 0 <= i < |s| ==> p(s[i]) == q(s[i])
    ensures Filter(s, p) == Filter(s, q)
  {
    if s != [] {
      FilterAgrees(s[1..], p, q);
    }
  }
}

/** JavaScript string operations the components use: `String.prototype.trim`,
    `split(",")`, `includes`, `parseInt` and number-to-string conversion. */
module Text {
  import opened Wrappers

  /** The ECMAScript WhiteSpace and LineTerminator code points, which `trim`
      removes and `parseInt` skips. */
  predicate IsWhitespace(c: char) {
    c == ' ' || c == '\t' || c == '\n' || c == '\r' || c == '\U{B}' || c == '\U{C}' ||
    c == '\U{A0}' || c == '\U{1680}' || ('\U{2000}' <= c <= '\U{200A}') ||
    c == '\U{2028}' || c == '\U{2029}' || c == '\U{202F}' || c == '\U{205F}' ||
    c == '\U{3000}' || c == '\U{FEFF}'
  }

  predicate AllWhitespace(s: string) {
    forall i :: 0 <= i < |s| ==> IsWhitespace(s[i])
  }

  /** Neither the first nor the last character is whitespace. */
  predicate IsTrimmed(s: string) {
    s == [] || (!IsWhitespace(s[0]) && !IsWhitespace(s[|s| - 1]))
  }

  /** Drops the leading whitespace. */
  function TrimStart(s: string): (r: string)
    ensures |r| <= |s|
    ensures r == [] || !IsWhitespace(r[0])
  {
    if s != [] && IsWhitespace(s[0]) then TrimStart(s[1..]) else s
  }

  /** What `TrimStart` drops is a whitespace prefix, and it keeps the rest. */
  lemma {:induction false} TrimStartSplits(s: string)
    ensures TrimStart(s) == s[|s| - |TrimStart(s)|..]
    ensures AllWhitespace(s[..|s| - |TrimStart(s)|])
  {
    if s != [] && IsWhitespace(s[0]) {
      TrimStartSplits(s[1..]);
      SlicesAfterHead(s, |s| - |TrimStart(s[1..])|);
    }
  }

  /** Cutting `s` at `k > 0` is cutting its tail at `k - 1`, after the head. */
  lemma SlicesAfterHead(s: string, k: nat)
    requires 1 <= k <= |s|
    ensures s[..k] == [s[0]] + s[1..][..k - 1]
    ensures s[k..] == s[1..][k - 1..]
  {
  }

  /** Text made only of whitespace loses all of it. */
  lemma {:induction false} TrimStartOfBlank(s: string)
    requires AllWhitespace(s)
    ensures TrimStart(s) == []
  {
    if s != [] {
      assert forall i :: 0 <= i < |s[1..]| ==> s[1..][i] == s[i + 1];
      TrimStartOfBlank(s[1..]);
    }
  }

  /** Whitespace in front of text that does not start with whitespace is
      exactly what `TrimStart` drops. */
  lemma {:induction false} TrimStartOfBlankThen(ws: string, x: string)
    requires AllWhitespace(ws)
    requires x == [] || !IsWhitespace(x[0])
    ensures TrimStart(ws + x) == x
  {
    if ws != [] {
      assert (ws + x)[0] == ws[0];
      assert (ws + x)[1..] == ws[1..] + x;
      assert forall i :: 0 <= i < |ws[1..]| ==> ws[1..][i] == ws[i + 1];
      TrimStartOfBlankThen(ws[1..], x);
    } else {
      assert ws + x == x;
    }
  }

  /** Drops the trailing whitespace; a non-empty result starts where `s` does. */
  function TrimEnd(s: string): (r: string)
    ensures |r| <= |s|
    ensures r == [] || (r[0] == s[0] && !IsWhitespace(r[|r| - 1]))
  {
    if s != [] && IsWhitespace(s[|s| - 1]) then TrimEnd(s[..|s| - 1]) else s
  }

  /** What `TrimEnd` drops is a whitespace suffix, and it keeps the rest. */
  lemma {:induction false} TrimEndSplits(s: string)
    ensures TrimEnd(s) == s[..|TrimEnd(s)|]
    ensures AllWhitespace(s[|TrimEnd(s)|..])
  {
    if s != [] && IsWhitespace(s[|s| - 1]) {
      TrimEndSplits(s[..|s| - 1]);
      SlicesBeforeLast(s, |TrimEnd(s[..|s| - 1])|);
    }
  }

  /** Cutting `s` at `k < |s|` is cutting all but its last element at `k`. */
  lemma SlicesBeforeLast(s: string, k: nat)
    requires k < |s|
    ensures s[..k] == s[..|s| - 1][..k]
    ensures s[k..] == s[..|s| - 1][k..] + [s[|s| - 1]]
  {
  }

  /** `s.trim()`: whitespace removed on both sides. */
  function Trim(s: string): (r: string)
    ensures |r| <= |s|
    ensures IsTrimmed(r)
  {
    TrimEnd(TrimStart(s))
  }

  /** `trim` keeps the infix of `s` between a whitespace prefix (of length `a`)
      and a whitespace suffix. */
  lemma TrimIsInfix(s: string)
    ensures var a := |s| - |TrimStart(s)|;
            a + |Trim(s)| <= |s| && Trim(s) == s[a..a + |Trim(s)|] &&
            AllWhitespace(s[..a]) && AllWhitespace(s[a + |Trim(s)|..])
  {
    TrimStartSplits(s);
    TrimEndSplits(TrimStart(s));
    InfixOfSuffix(s, TrimStart(s), Trim(s));
  }

  /** A prefix `r` of a suffix `t` of `s` is the infix of `s` where `t` starts. */
  lemma InfixOfSuffix(s: string, t: string, r: string)
    requires |t| <= |s| && t == s[|s| - |t|..]
    requires |r| <= |t| && r == t[..|r|]
    ensures r == s[|s| - |t|..|s| - |t| + |r|]
    ensures s[|s| - |t| + |r|..] == t[|r|..]
  {
  }

  /** The trimmed text is empty exactly when the text is all whitespace. */
  lemma TrimEmptyIffBlank(s: string)
    ensures Trim(s) == [] <==> AllWhitespace(s)
  {
    TrimIsInfix(s);
    var a := |s| - |TrimStart(s)|;
    if Trim(s) == [] {
      assert s == s[..a] + s[a..];
    } else {
      assert !IsWhitespace(s[a]);
    }
  }

  /** Trimming a trimmed string changes nothing, so `trim` is idempotent. */
  lemma TrimOfTrimmed(s: string)
    requires IsTrimmed(s)
    ensures Trim(s) == s
  {
    assert TrimStart(s) == s;
  }

  lemma TrimIdempotent(s: string)
    ensures Trim(Trim(s)) == Trim(s)
  {
    TrimOfTrimmed(Trim(s));
  }

  /** The number of commas, so the number of separators `split(",")` cuts at. */
  function CommaCount(s: string): nat {
    multiset(s)[',']
  }

  /** `s.split(",")`: the maximal comma-free pieces between the commas; the empty
      string gives one empty piece, as in JavaScript. */
  function Split(s: string): (pieces: seq<string>)
    ensures |pieces| >= 1
    ensures forall i :: 0 <= i < |pieces| ==> ',' !in pieces[i]
  {
    if s == [] then [""]
    else
      var rest := Split(s[1..]);
      if s[0] == ',' then [""] + rest
      else [[s[0]] + rest[0]] + rest[1..]
  }

  /** `split(",")` cuts at every comma: one piece more than there are commas. */
  lemma {:induction false} SplitCount(s: string)
    ensures |Split(s)| == CommaCount(s) + 1
  {
    if s != [] {
      SplitCount(s[1..]);
      assert s == [s[0]] + s[1..];
    }
  }

  /** `pieces.join(",")`. */
  function Join(pieces: seq<string>): string
    requires |pieces| >= 1
  {
    if |pieces| == 1 then pieces[0] else pieces[0] + "," + Join(pieces[1..])
  }

  /** Joining the pieces with commas gives back the original text. */
  lemma {:induction false} JoinSplit(s: string)
    ensures Join(Split(s)) == s
  {
    if s != [] {
      JoinSplit(s[1..]);
      var rest := Split(s[1..]);
      assert s == [s[0]] + s[1..];
      if s[0] == ',' {
        assert Split(s) == [""] + rest;
        assert Join(Split(s)) == "" + "," + Join(rest);
      } else {
        var first := [s[0]] + rest[0];
        assert Split(s) == [first] + rest[1..];
        if |rest| == 1 {
          assert Join(Split(s)) == first;
        } else {
          assert Join(rest) == rest[0] + "," + Join(rest[1..]);
          assert Join(Split(s)) == first + "," + Join(rest[1..]);
        }
      }
    }
  }

  /** Splitting comma-free pieces joined with commas gives back the pieces. */
  lemma {:induction false} SplitJoin(pieces: seq<string>)
    requires |pieces| >= 1
    requires forall i :: 0 <= i < |pieces| ==> ',' !in pieces[i]
    ensures Split(Join(pieces)) == pieces
  {
    if |pieces| == 1 {
      SplitOfCommaFree(pieces[0]);
    } else {
      SplitJoin(pieces[1..]);
      SplitAtComma(pieces[0], Join(pieces[1..]));
    }
  }

  /** Text without a comma is a single piece. */
  lemma {:induction false} SplitOfCommaFree(head: string)
    requires ',' !in head
    ensures Split(head) == [head]
  {
    if head != [] {
      SplitOfCommaFree(head[1..]);
      assert head == [head[0]] + head[1..];
    }
  }

  /** A comma-free head followed by a comma is split off as the first piece. */
  lemma {:induction false} SplitAtComma(head: string, tail: string)
    requires ',' !in head
    ensures Split(head + "," + tail) == [head] + Split(tail)
  {
    var s := head + "," + tail;
    if head == [] {
      assert s[0] == ',' && s[1..] == tail;
    } else {
      assert s[0] == head[0] && s[0] != ',';
      assert s[1..] == head[1..] + "," + tail;
      SplitAtComma(head[1..], tail);
      assert [head[0]] + head[1..] == head;
    }
  }

  /** `s.startsWith(p)`. */
  predicate StartsWith(s: string, p: string) {
    |p| <= |s| && s[..|p|] == p
  }

  /** `s.includes(sub)`, computed by scanning start positions left to right. */
  predicate Includes(s: string, sub: string)
    decreases |s|
  {
    StartsWith(s, sub) || (s != [] && Includes(s[1..], sub))
  }

  /** `sub` occurs in `s` starting at position `i`. */
  ghost predicate OccursAt(sub: string, s: string, i: nat) {
    i + |sub| <= |s| && s[i..i + |sub|] == sub
  }

  /** `sub` occurs in `s` at some position. */
  ghost predicate OccursIn(sub: string, s: string) {
    exists i: nat :: OccursAt(sub, s, i)
  }

  /** The scan finds `sub` exactly when it occurs somewhere in `s`. */
  lemma {:induction false} IncludesIffOccurs(s: string, sub: string)
    ensures Includes(s, sub) <==> OccursIn(sub, s)
    decreases |s|
  {
    if StartsWith(s, sub) {
      assert OccursAt(sub, s, 0);
    } else if OccursIn(sub, s) {
      var i: nat :| OccursAt(sub, s, i);
      assert i != 0;
      assert s[1..][i - 1..i - 1 + |sub|] == s[i..i + |sub|];
      assert OccursAt(sub, s[1..], i - 1);
      IncludesIffOccurs(s[1..], sub);
    } else if s != [] {
      IncludesIffOccurs(s[1..], sub);
      if OccursIn(sub, s[1..]) {
        var i: nat :| OccursAt(sub, s[1..], i);
        assert s[i + 1..i + 1 + |sub|] == s[1..][i..i + |sub|];
        assert OccursAt(sub, s, i + 1);
      }
    }
  }

  predicate IsDigit(c: char) {
    '0' <= c <= '9'
  }

  predicate AllDigits(s: string) {
    forall i :: 0 <= i < |s| ==> IsDigit(s[i])
  }

  function DigitValue(c: char): nat
    requires IsDigit(c)
  {
    c as int - '0' as int
  }

  function DigitChar(d: nat): (c: char)
    requires d < 10
    ensures IsDigit(c) && DigitValue(c) == d
  {
    ('0' as int + d) as char
  }

  /** The decimal text of `n`, as JavaScript prints a non-negative integer. */
  function NatToString(n: nat): (s: string)
    ensures |s| >= 1 && AllDigits(s)
    ensures s[0] == '0' ==> n == 0
  {
    if n < 10 then [DigitChar(n)] else NatToString(n / 10) + [DigitChar(n % 10)]
  }

  /** The number a string of decimal digits denotes. */
  function DigitsValue(ds: string): nat
    requires AllDigits(ds)
  {
    if ds == [] then 0 else DigitsValue(ds[..|ds| - 1]) * 10 + DigitValue(ds[|ds| - 1])
  }

  /** The longest prefix of `s` made of decimal digits. */
  function LeadingDigits(s: string): (ds: string)
    ensures StartsWith(s, ds) && AllDigits(ds)
    ensures |ds| == |s| || !IsDigit(s[|ds|])
  {
    if s != [] && IsDigit(s[0]) then [s[0]] + LeadingDigits(s[1..]) else []
  }

  /** `parseInt(s)` for decimal text: skip leading whitespace, read an optional
      sign and then as many digits as follow. No digit at all gives `NaN`,
      written `None`. */
  function ParseInt(s: string): Option<int> {
    var t := TrimStart(s);
    var negative := t != [] && t[0] == '-';
    var body := if t != [] && (t[0] == '-' || t[0] == '+') then t[1..] else t;
    var ds := LeadingDigits(body);
    if ds == [] then None
    else if negative then Some(-(DigitsValue(ds) as int))
    else Some(DigitsValue(ds))
  }

  lemma {:induction false} DigitsValueOfNatToString(n: nat)
    ensures DigitsValue(NatToString(n)) == n
  {
    if n >= 10 {
      DigitsValueOfNatToString(n / 10);
      var s := NatToString(n);
      assert s[..|s| - 1] == NatToString(n / 10);
    }
  }

  lemma {:induction false} LeadingDigitsOfDigitsThen(ds: string, rest: string)
    requires AllDigits(ds)
    requires rest == [] || !IsDigit(rest[0])
    ensures LeadingDigits(ds + rest) == ds
  {
    if ds != [] {
      assert (ds + rest)[1..] == ds[1..] + rest;
      LeadingDigitsOfDigitsThen(ds[1..], rest);
    }
  }

  /** `parseInt` reads back the decimal text of a number, whatever non-digit
      text follows it. */
  lemma ParseIntOfNatToString(n: nat, rest: string)
    requires rest == [] || !IsDigit(rest[0])
    ensures ParseInt(NatToString(n) + rest) == Some(n)
  {
    var s := NatToString(n) + rest;
    assert !IsWhitespace(s[0]);
    assert TrimStart(s) == s;
    LeadingDigitsOfDigitsThen(NatToString(n), rest);
    DigitsValueOfNatToString(n);
  }

  /** The same for a negative number written with a leading minus sign. */
  lemma ParseIntOfNegative(n: nat)
    ensures ParseInt("-" + NatToString(n)) == Some(-(n as int))
  {
    var s := "-" + NatToString(n);
    assert s[1..] == NatToString(n) + [];
    assert TrimStart(s) == s;
    LeadingDigitsOfDigitsThen(NatToString(n), []);
    DigitsValueOfNatToString(n);
  }

  /** All-whitespace text, the empty text included, is `NaN`. */
  lemma ParseIntNoDigits(s: string)
    requires AllWhitespace(s)
    ensures ParseInt(s) == None
  {
    TrimStartOfBlank(s);
  }

  /** More generally, text whose first character after the leading whitespace
      and an optional sign is not a digit is `NaN`: `parseInt("-x")`,
      `parseInt("  +")` and `parseInt("abc")` all are. */
  lemma ParseIntWithoutDigits(ws: string, sign: string, rest: string)
    requires AllWhitespace(ws)
    requires sign == "" || sign == "-" || sign == "+"
    requires rest == [] || (!IsDigit(rest[0]) && !IsWhitespace(rest[0]))
    requires sign == "" && rest != [] ==> rest[0] != '-' && rest[0] != '+'
    ensures ParseInt(ws + sign + rest) == None
  {
    assert ws + sign + rest == ws + (sign + rest);
    TrimStartOfBlankThen(ws, sign + rest);
    if sign != "" {
      assert (sign + rest)[1..] == rest;
    }
  }
}

/** The signed-in user that every component reads from local storage. */
module Identity {
  import opened Wrappers

  datatype User = User(uid: string, displayName: Option<string>, email: string)

  /** `user.displayName || user.email`: the display name when it is present and
      non-empty, the e-mail address otherwise. */
  function SenderLabel(u: User): (shown: string)
    ensures u.displayName.Some? && u.displayName.value != [] ==> shown == u.displayName.value
    ensures u.displayName.None? || u.displayName.value == [] ==> shown == u.email
  {
    if u.displayName.Some? && u.displayName.value != [] then u.displayName.value else u.email
  }

  /** `user?.uid`: the uid, or `undefined` when nobody is signed in. */
  function UidOf(user: Option<User>): (uid: Option<string>)
    ensures uid.Some? <==> user.Some?
    ensures user.Some? ==> uid.value == user.value.uid
  {
    if user.Some? then Some(user.value.uid) else None
  }
}
