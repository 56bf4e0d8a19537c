/** Usernames made up from an email address, against the validator of the HTTP layer. */
module Usernames {
  import opened Text

  // ----- characters

  predicate LowerAlnum(c: char) {
    'a' <= c <= 'z' || '0' <= c <= '9'
  }

  predicate Alnum(c: char) {
    LowerAlnum(c) || 'A' <= c <= 'Z'
  }

  predicate Separator(c: char) {
    c == '-' || c == '_'
  }

  predicate Keeps(c: char) {
    LowerAlnum(c) || Separator(c)
  }

  function LowerChar(c: char): char {
    if 'A' <= c <= 'Z' then (c as int - 'A' as int + 'a' as int) as char else c
  }

  function LowerAscii(s: string): string {
    seq(|s|, i requires 0 <= i < |s| => LowerChar(s[i]))
  }

  // ----- the validator

  /** `__` or `--` occurs. */
  ghost predicate Doubled(s: string) {
    exists i | 0 <= i < |s| - 1 :: s[i] == s[i + 1] && Separator(s[i])
  }

  /** `ValidateUserName`: one to thirty-two characters, the first one not a separator. */
  ghost predicate ValidUserName(name: string) {
    && 1 <= |name| <= 32 && Alnum(name[0])
    && (forall c | c in name :: Alnum(c) || Separator(c))
    && !Doubled(name)
  }

  /** Letters and digits alone are valid up to thirty-two of them. */
  lemma {:induction false} PlainNameIsValid(name: string)
    requires forall c | c in name :: Alnum(c)
    ensures ValidUserName(name) <==> 1 <= |name| <= 32
  {
    assert forall i | 0 <= i < |name| :: name[i] in name;
  }

  // ----- the scan

  const NONE := '\0'

  /** The buffer and the remembered last character after reading a text. */
  datatype Scan = Scan(buf: string, last: char)

  function Read(p: Scan, c: char): Scan {
    if !Keeps(c) then p.(last := NONE)
    else if Separator(c) && c == p.last then p
    else Scan(p.buf + [c], c)
  }

  function ScanAll(s: string): Scan {
    if s == "" then Scan("", NONE) else Read(ScanAll(s[..|s| - 1]), s[|s| - 1])
  }

  function TrimLeft(s: string): string {
    if s != "" && Separator(s[0]) then TrimLeft(s[1..]) else s
  }

  function TrimRight(s: string): string {
    if s != "" && Separator(s[|s| - 1]) then TrimRight(s[..|s| - 1]) else s
  }

  function Sanitized(lowered: string, maxLen: nat): string {
    var cleaned := TrimRight(TrimLeft(ScanAll(lowered).buf));
    if |cleaned| > maxLen then TrimRight(cleaned[..maxLen]) else cleaned
  }

  /** `sanitizeForUsername`, from the lower-cased text on. */
  method SanitizeForUsername(lowered: string, maxLen: nat) returns (cleaned: string)
    ensures cleaned == Sanitized(lowered, maxLen)
  {
    if lowered == "" {
      return "";
    }
    var buf := "";
    var lastChar := NONE;
    for i := 0 to |lowered|
      invariant Scan(buf, lastChar) == ScanAll(lowered[..i])
    {
      assert lowered[..i + 1][..i] == lowered[..i];
      var c := lowered[i];
      if LowerAlnum(c) || c == '-' || c == '_' {
        if (c == '-' || c == '_') && c == lastChar {
          continue;
        }
        buf := buf + [c];
        lastChar := c;
      } else {
        lastChar := NONE;
      }
    }
    assert lowered[..|lowered|] == lowered;
    cleaned := TrimRight(TrimLeft(buf));
    if |cleaned| > maxLen {
      cleaned := TrimRight(cleaned[..maxLen]);
    }
  }

  // ----- what the scan keeps

  /** `a` is `b` with some characters left out. */
  ghost predicate Subsequence(a: string, b: string) {
    if a == "" then true
    else if b == "" then false
    else
      || (a[|a| - 1] == b[|b| - 1] && Subsequence(a[..|a| - 1], b[..|b| - 1]))
      || Subsequence(a, b[..|b| - 1])
  }

  lemma {:induction false} SubsequenceDropLast(a: string, b: string)
    requires a != "" && Subsequence(a, b)
    ensures Subsequence(a[..|a| - 1], b)
    decreases |b|
  {
    var a', b' := a[..|a| - 1], b[..|b| - 1];
    if a[|a| - 1] == b[|b| - 1] && Subsequence(a', b') {
      assert Subsequence(a', b);
    } else {
      SubsequenceDropLast(a, b');
    }
  }

  lemma {:induction false} SubsequenceDropFirst(a: string, b: string)
    requires a != "" && Subsequence(a, b)
    ensures Subsequence(a[1..], b)
    decreases |b|
  {
    var a', b' := a[..|a| - 1], b[..|b| - 1];
    if a[|a| - 1] == b[|b| - 1] && Subsequence(a', b') {
      if a' != "" {
        SubsequenceDropFirst(a', b');
        assert a[1..][..|a| - 2] == a'[1..];
      }
    } else {
      SubsequenceDropFirst(a, b');
    }
  }

  lemma {:induction false} SubsequencePrefix(a: string, b: string, n: nat)
    requires Subsequence(a, b) && n <= |a|
    ensures Subsequence(a[..n], b)
    decreases |a|
  {
    if n == |a| {
      assert a[..n] == a;
    } else {
      SubsequenceDropLast(a, b);
      SubsequencePrefix(a[..|a| - 1], b, n);
      assert a[..|a| - 1][..n] == a[..n];
    }
  }

  lemma {:induction false} ScanKeeps(s: string)
    ensures Subsequence(ScanAll(s).buf, s)
    ensures forall c | c in ScanAll(s).buf :: Keeps(c)
  {
    if s != "" {
      ScanKeeps(s[..|s| - 1]);
      var p := ScanAll(s[..|s| - 1]);
      assert (p.buf + [s[|s| - 1]])[..|p.buf|] == p.buf;
    }
  }

  // ----- trimming

  lemma {:induction false} TrimLeftFacts(s: string, b: string)
    requires Subsequence(s, b)
    ensures Subsequence(TrimLeft(s), b)
  {
    if s != "" && Separator(s[0]) {
      SubsequenceDropFirst(s, b);
      TrimLeftFacts(s[1..], b);
    }
  }

  /** Trimming on the left cuts in front of the first letter or digit. */
  lemma {:induction false} TrimLeftCut(s: string)
    ensures |TrimLeft(s)| <= |s| && TrimLeft(s) == s[|s| - |TrimLeft(s)|..]
    ensures forall y | 0 <= y < |s| - |TrimLeft(s)| :: Separator(s[y])
    ensures TrimLeft(s) != "" ==> !Separator(TrimLeft(s)[0])
  {
    if s != "" && Separator(s[0]) {
      TrimLeftCut(s[1..]);
      var d := |s| - |TrimLeft(s)|;
      assert s[1..][d - 1..] == s[d..];
      assert forall y | 1 <= y < d :: s[y] == s[1..][y - 1];
    }
  }

  lemma {:induction false} TrimRightFacts(s: string, b: string)
    requires Subsequence(s, b)
    ensures Subsequence(TrimRight(s), b)
    ensures TrimRight(s) <= s
    ensures TrimRight(s) != "" ==> !Separator(TrimRight(s)[|TrimRight(s)| - 1])
    ensures s != "" && !Separator(s[0]) ==> TrimRight(s) != ""
  {
    if s != "" && Separator(s[|s| - 1]) {
      SubsequenceDropLast(s, b);
      TrimRightFacts(s[..|s| - 1], b);
    }
  }

  ghost predicate AlnumEnds(s: string) {
    s != "" ==> LowerAlnum(s[0]) && LowerAlnum(s[|s| - 1])
  }

  /** The text of a window of the buffer. */
  ghost predicate Window(s: string, buf: string) {
    exists i, j | 0 <= i <= j <= |buf| :: s == buf[i..j]
  }

  lemma {:induction false} WindowChars(s: string, buf: string)
    requires Window(s, buf)
    ensures |s| <= |buf| && forall c | c in s :: c in buf
  {
    var i, j :| 0 <= i <= j <= |buf| && s == buf[i..j];
  }

  lemma {:induction false} WindowPrefix(r: string, s: string, buf: string)
    requires Window(s, buf) && r <= s
    ensures Window(r, buf)
  {
    var i, j :| 0 <= i <= j <= |buf| && s == buf[i..j];
    assert r == buf[i..i + |r|];
  }

  /** A subsequence of the text over `[a-z0-9_-]` with alphanumeric ends, and a window of the
      scan buffer. */
  ghost predicate Shape(r: string, lowered: string) {
    && Subsequence(r, lowered) && AlnumEnds(r)
    && (forall c | c in r :: Keeps(c)) && Window(r, ScanAll(lowered).buf)
  }

  lemma {:induction false} TrimRightShape(s: string, lowered: string)
    requires Subsequence(s, lowered) && (forall c | c in s :: Keeps(c)) && Window(s, ScanAll(lowered).buf)
    requires s != "" ==> !Separator(s[0])
    ensures Shape(TrimRight(s), lowered)
  {
    TrimRightFacts(s, lowered);
    var r := TrimRight(s);
    WindowPrefix(r, s, ScanAll(lowered).buf);
    if r != "" {
      assert r[0] == s[0] && s[0] in s && r[|r| - 1] in s;
    }
  }

  lemma {:induction false} CleanedShape(lowered: string)
    ensures Shape(TrimRight(TrimLeft(ScanAll(lowered).buf)), lowered)
  {
    var buf := ScanAll(lowered).buf;
    ScanKeeps(lowered);
    TrimLeftFacts(buf, lowered);
    TrimLeftCut(buf);
    assert TrimLeft(buf) == buf[|buf| - |TrimLeft(buf)|..|buf|];
    WindowChars(TrimLeft(buf), buf);
    TrimRightShape(TrimLeft(buf), lowered);
  }

  /** For every text and every limit, the sanitized text has that shape and respects the limit. */
  lemma {:induction false} SanitizedShape(lowered: string, maxLen: nat)
    ensures Shape(Sanitized(lowered, maxLen), lowered) && |Sanitized(lowered, maxLen)| <= maxLen
  {
    CleanedShape(lowered);
    var cleaned := TrimRight(TrimLeft(ScanAll(lowered).buf));
    if |cleaned| > maxLen {
      SubsequencePrefix(cleaned, lowered, maxLen);
      WindowPrefix(cleaned[..maxLen], cleaned, ScanAll(lowered).buf);
      TrimRightShape(cleaned[..maxLen], lowered);
      TrimRightFacts(cleaned[..maxLen], lowered);
    }
  }

  // ----- what the sanitizer does not lose

  function Alnums(s: string): string {
    if s == "" then "" else Alnums(s[..|s| - 1]) + if LowerAlnum(s[|s| - 1]) then [s[|s| - 1]] else ""
  }

  lemma {:induction false} AlnumsAppend(s: string, c: char)
    ensures Alnums(s + [c]) == Alnums(s) + if LowerAlnum(c) then [c] else ""
  {
    assert (s + [c])[..|s|] == s;
  }

  lemma {:induction false} ScanKeepsAlnums(s: string)
    ensures Alnums(ScanAll(s).buf) == Alnums(s)
  {
    if s != "" {
      var init, c := s[..|s| - 1], s[|s| - 1];
      ScanKeepsAlnums(init);
      var p := ScanAll(init);
      AlnumsAppend(p.buf, c);
      assert ScanAll(s) == Read(p, c);
      assert Alnums(Read(p, c).buf) == Alnums(p.buf) + if LowerAlnum(c) then [c] else "";
    }
  }

  lemma {:induction false} AlnumsTail(s: string)
    requires s != "" && Separator(s[0])
    ensures Alnums(s[1..]) == Alnums(s)
  {
    if |s| > 1 {
      AlnumsTail(s[..|s| - 1]);
      assert s[1..][..|s| - 2] == s[..|s| - 1][1..];
    }
  }

  lemma {:induction false} TrimKeepsAlnums(s: string)
    ensures Alnums(TrimLeft(s)) == Alnums(s) && Alnums(TrimRight(s)) == Alnums(s)
    decreases |s|
  {
    if s != "" && Separator(s[0]) {
      AlnumsTail(s);
      TrimKeepsAlnums(s[1..]);
    }
    if s != "" && Separator(s[|s| - 1]) {
      TrimKeepsAlnums(s[..|s| - 1]);
    }
  }

  /** As long as the limit does not cut, every letter and digit of the text is kept, in order. */
  lemma {:induction false} NoAlnumIsLost(lowered: string, maxLen: nat)
    requires |ScanAll(lowered).buf| <= maxLen
    ensures Alnums(Sanitized(lowered, maxLen)) == Alnums(lowered)
  {
    var buf := ScanAll(lowered).buf;
    ScanKeeps(lowered);
    ScanKeepsAlnums(lowered);
    TrimKeepsAlnums(buf);
    TrimKeepsAlnums(TrimLeft(buf));
    TrimLeftFacts(buf, lowered);
    TrimLeftCut(buf);
    TrimRightFacts(TrimLeft(buf), lowered);
  }

  lemma {:induction false} ScanOfClean(s: string)
    requires (forall c | c in s :: Keeps(c)) && !Doubled(s)
    ensures ScanAll(s) == Scan(s, if s == "" then NONE else s[|s| - 1])
  {
    if s != "" {
      var init, c := s[..|s| - 1], s[|s| - 1];
      assert s == init + [c] && c in s;
      AppendDoubles(init, c);
      ScanOfClean(init);
    }
  }

  /** A text that is already clean comes back unchanged. */
  lemma {:induction false} CleanIsUnchanged(s: string, maxLen: nat)
    requires (forall c | c in s :: Keeps(c)) && !Doubled(s) && AlnumEnds(s) && |s| <= maxLen
    ensures Sanitized(s, maxLen) == s
  {
    ScanOfClean(s);
  }

  lemma {:induction false} AppendDoubles(buf: string, c: char)
    ensures Doubled(buf + [c]) <==> Doubled(buf) || (buf != "" && buf[|buf| - 1] == c && Separator(c))
  {
    var longer := buf + [c];
    if Doubled(buf) {
      var i :| 0 <= i < |buf| - 1 && buf[i] == buf[i + 1] && Separator(buf[i]);
      assert longer[i] == longer[i + 1] && Separator(longer[i]);
    }
    if buf != "" && buf[|buf| - 1] == c && Separator(c) {
      assert longer[|buf| - 1] == longer[|buf|];
    }
  }

  // ----- where the kept characters stand in the text

  /** The scan keeps the character at `p`: it is of the alphabet and does not repeat a separator
      right before it. */
  predicate KeptAt(s: string, p: nat)
    requires p < |s|
  {
    Keeps(s[p]) && !(Separator(s[p]) && p > 0 && s[p - 1] == s[p])
  }

  /** The kept positions in front of `n`, in order. */
  ghost function Positions(s: string, n: nat): (ps: seq<nat>)
    requires n <= |s|
    ensures forall b | 0 <= b < |ps| :: ps[b] < n && KeptAt(s, ps[b])
    ensures forall b, c | 0 <= b < c < |ps| :: ps[b] < ps[c]
  {
    if n == 0 then [] else Positions(s, n - 1) + if KeptAt(s, n - 1) then [n - 1] else []
  }

  /** How many characters are kept in a stretch of the text. */
  function KeptCount(s: string, from: nat, to: nat): nat
    requires to <= |s|
  {
    if to <= from then 0 else KeptCount(s, from, to - 1) + if KeptAt(s, to - 1) then 1 else 0
  }

  /** The buffer is the text at the kept positions. */
  lemma {:induction false} BufferIsKept(s: string, n: nat)
    requires n <= |s|
    ensures var p, ps := ScanAll(s[..n]), Positions(s, n);
      && |p.buf| == |ps| && (forall b | 0 <= b < |ps| :: p.buf[b] == s[ps[b]])
      && p.last == if n > 0 && Keeps(s[n - 1]) then s[n - 1] else NONE
  {
    if n > 0 {
      BufferIsKept(s, n - 1);
      assert s[..n][..n - 1] == s[..n - 1];
    }
  }

  /** Every kept position is listed, at the index that counts those in front of it. */
  lemma {:induction false} IndexOfKept(s: string, n: nat, p: nat)
    requires p < n <= |s| && KeptAt(s, p)
    ensures |Positions(s, p)| < |Positions(s, n)| && Positions(s, n)[|Positions(s, p)|] == p
  {
    if p < n - 1 {
      IndexOfKept(s, n - 1, p);
    }
  }

  lemma {:induction false} CountIsDifference(s: string, from: nat, to: nat)
    requires from <= to <= |s|
    ensures |Positions(s, to)| == |Positions(s, from)| + KeptCount(s, from, to)
  {
    if from < to {
      CountIsDifference(s, from, to - 1);
    }
  }

  // ----- doubled separators

  /** A separator at `i` comes back at `j` after characters that are all dropped. */
  ghost predicate BridgeFrom(s: string, i: int, j: int) {
    0 <= i && i + 1 < j < |s| && s[i] == s[j] && Separator(s[i]) && forall k | i < k < j :: !Keeps(s[k])
  }

  ghost predicate BridgeTo(s: string, j: int) {
    exists i :: BridgeFrom(s, i, j)
  }

  ghost predicate Bridged(s: string) {
    exists i, j :: BridgeFrom(s, i, j)
  }

  /** The last position of the alphabet in a stretch that starts with a separator and keeps
      nothing more. */
  lemma {:induction false} RunOfSeparator(s: string, i: nat, n: nat) returns (last: nat)
    requires i < n <= |s| && Separator(s[i])
    requires forall k | i < k < n :: !KeptAt(s, k)
    ensures i <= last < n && s[last] == s[i] && forall k | last < k < n :: !Keeps(s[k])
    ensures forall k | i <= k <= last :: s[k] == s[i]
  {
    last := i;
    if i + 1 < n {
      last := RunOfSeparator(s, i, n - 1);
      if Keeps(s[n - 1]) {
        assert !KeptAt(s, n - 1) && s[n - 2] == s[n - 1] && last == n - 2;
        last := n - 1;
      }
    }
  }

  /** Two neighbours in the buffer are the same separator exactly when a bridge ends at the second. */
  lemma {:induction false} NeighboursIffBridge(s: string, x: nat)
    requires x + 1 < |ScanAll(s).buf|
    ensures var ps := Positions(s, |s|); |ps| == |ScanAll(s).buf|
    ensures var buf, ps := ScanAll(s).buf, Positions(s, |s|);
      (buf[x] == buf[x + 1] && Separator(buf[x])) <==> BridgeTo(s, ps[x + 1])
  {
    assert s[..|s|] == s;
    BufferIsKept(s, |s|);
    var buf, ps := ScanAll(s).buf, Positions(s, |s|);
    var p, j := ps[x], ps[x + 1];
    forall k | p < k < j ensures !KeptAt(s, k) {
      if KeptAt(s, k) {
        IndexOfKept(s, |s|, k);
      }
    }
    if buf[x] == buf[x + 1] && Separator(buf[x]) {
      var i := RunOfSeparator(s, p, j);
      assert BridgeFrom(s, i, j);
    }
    if i :| BridgeFrom(s, i, j) {
      assert p <= i;
      SameBackTo(s, p, i);
    }
  }

  /** The text keeps nothing between `p` and a character of the alphabet at `i` only if it
      repeats one separator from `p` to `i`. */
  lemma {:induction false} SameBackTo(s: string, p: nat, i: nat)
    requires p <= i < |s| && Keeps(s[i])
    requires forall k | p < k <= i :: !KeptAt(s, k)
    ensures s[p] == s[i]
  {
    if p < i {
      assert !KeptAt(s, i);
      SameBackTo(s, p, i - 1);
    }
  }

  /** The scan buffer holds a doubled separator exactly when one was bridged. */
  lemma {:induction false} DoubledIffBridged(s: string)
    ensures Doubled(ScanAll(s).buf) <==> Bridged(s)
  {
    assert s[..|s|] == s;
    BufferIsKept(s, |s|);
    var buf, ps := ScanAll(s).buf, Positions(s, |s|);
    if Doubled(buf) {
      var x :| 0 <= x < |buf| - 1 && buf[x] == buf[x + 1] && Separator(buf[x]);
      NeighboursIffBridge(s, x);
    }
    if i, j :| BridgeFrom(s, i, j) {
      var x := BridgeIndex(s, i, j);
      NeighboursIffBridge(s, x);
    }
  }

  /** The buffer index in front of the end of a bridge. */
  lemma {:induction false} BridgeIndex(s: string, i: int, j: int) returns (x: nat)
    requires BridgeFrom(s, i, j)
    ensures x + 1 < |Positions(s, |s|)| && Positions(s, |s|)[x + 1] == j
    ensures x + 1 == |Positions(s, j)|
  {
    IndexOfKept(s, |s|, j);
    var first := FirstOfRun(s, i);
    IndexOfKept(s, j, first);
    x := |Positions(s, j)| - 1;
  }

  /** A run of one separator starts with a kept one. */
  lemma {:induction false} FirstOfRun(s: string, i: nat) returns (first: nat)
    requires i < |s| && Keeps(s[i])
    ensures first <= i && s[first] == s[i] && KeptAt(s, first)
  {
    first := i;
    if !KeptAt(s, i) {
      first := FirstOfRun(s, i - 1);
    }
  }

  // ----- doubled separators that survive trimming and the limit

  /** A bridge with a letter or digit on both sides, the later one still within the limit: `h` is
      the first letter or digit of the text, and `limit` bounds what is kept from `h` to `k`. */
  ghost predicate InnerBridge(s: string, limit: nat, h: int, i: int, j: int, k: int) {
    && 0 <= h < i && BridgeFrom(s, i, j) && j < k < |s|
    && LowerAlnum(s[h]) && (forall p | 0 <= p < h :: !LowerAlnum(s[p]))
    && LowerAlnum(s[k]) && KeptCount(s, h, k + 1) <= limit
  }

  ghost predicate KeepsBridge(s: string, limit: nat) {
    exists h, i, j, k :: InnerBridge(s, limit, h, i, j, k)
  }

  lemma {:induction false} TrimRightBetween(x: string, y: string)
    requires TrimRight(x) <= y <= x
    ensures TrimRight(y) == TrimRight(x)
  {
    if y == x {
    } else if x != "" && Separator(x[|x| - 1]) {
      assert y <= x[..|x| - 1];
      TrimRightBetween(x[..|x| - 1], y);
    }
  }

  lemma {:induction false} TrimRightPrefix(s: string)
    ensures TrimRight(s) <= s
    ensures forall y | |TrimRight(s)| <= y < |s| :: Separator(s[y])
    ensures TrimRight(s) != "" ==> !Separator(TrimRight(s)[|TrimRight(s)| - 1])
  {
    if s != "" && Separator(s[|s| - 1]) {
      TrimRightPrefix(s[..|s| - 1]);
    }
  }

  /** Sanitizing is trimming the buffer on the left, cutting at the limit, trimming on the right. */
  lemma {:induction false} SanitizedIsCut(lowered: string, limit: nat)
    ensures Sanitized(lowered, limit) == TrimRight(CutBuffer(lowered, limit))
  {
    var t := TrimLeft(ScanAll(lowered).buf);
    var cleaned := TrimRight(t);
    TrimRightPrefix(t);
    if |cleaned| > limit {
      assert cleaned[..limit] == t[..limit];
    } else {
      TrimRightBetween(t, t[..if |t| <= limit then |t| else limit]);
    }
  }

  /** Trimming on the right keeps a doubled separator exactly when something else follows it. */
  lemma {:induction false} TrimRightDoubled(u: string)
    ensures Doubled(TrimRight(u)) <==> exists x, y :: FollowedDouble(u, x, y)
  {
    var r := TrimRight(u);
    TrimRightPrefix(u);
    if Doubled(r) {
      var x :| 0 <= x < |r| - 1 && r[x] == r[x + 1] && Separator(r[x]);
      assert FollowedDouble(u, x, |r| - 1);
    }
    if x, y :| FollowedDouble(u, x, y) {
      assert y < |r|;
      assert r[x] == r[x + 1] && Separator(r[x]);
    }
  }

  /** A doubled separator of the buffer with a letter or digit in front and one behind it, no
      further than the limit from the first one. */
  ghost predicate InnerDouble(buf: string, limit: nat, a: int, x: int, y: int) {
    && 0 <= a < x && x + 1 < y < |buf| && y - a < limit
    && !Separator(buf[a]) && (forall b | 0 <= b < a :: Separator(buf[b]))
    && buf[x] == buf[x + 1] && Separator(buf[x]) && !Separator(buf[y])
  }

  /** The cut buffer: from its first letter or digit, at most `limit` characters. */
  ghost function CutBuffer(lowered: string, limit: nat): string {
    var t := TrimLeft(ScanAll(lowered).buf);
    t[..if |t| <= limit then |t| else limit]
  }

  lemma {:induction false} CutBufferAt(lowered: string, limit: nat) returns (a: nat)
    ensures var buf, u := ScanAll(lowered).buf, CutBuffer(lowered, limit);
      && a <= |buf| && |u| == (if |buf| - a <= limit then |buf| - a else limit)
      && (forall z | 0 <= z < |u| :: u[z] == buf[a + z])
      && (forall b | 0 <= b < a :: Separator(buf[b])) && (a < |buf| ==> !Separator(buf[a]))
  {
    var buf := ScanAll(lowered).buf;
    TrimLeftCut(buf);
    a := |buf| - |TrimLeft(buf)|;
  }

  /** A doubled separator that something else follows. */
  ghost predicate FollowedDouble(u: string, x: int, y: int) {
    0 <= x && x + 1 < y < |u| && u[x] == u[x + 1] && Separator(u[x]) && !Separator(u[y])
  }

  lemma {:induction false} DoubledSurvives(lowered: string, limit: nat)
    ensures Doubled(Sanitized(lowered, limit)) <==>
      exists a, x, y :: InnerDouble(ScanAll(lowered).buf, limit, a, x, y)
  {
    var buf, u := ScanAll(lowered).buf, CutBuffer(lowered, limit);
    SanitizedIsCut(lowered, limit);
    TrimRightDoubled(u);
    var a := CutBufferAt(lowered, limit);
    if x, y :| FollowedDouble(u, x, y) {
      assert u[x] == buf[a + x] && u[x + 1] == buf[a + x + 1] && u[y] == buf[a + y] && u[0] == buf[a];
      assert InnerDouble(buf, limit, a, a + x, a + y);
    }
    if a', x, y :| InnerDouble(buf, limit, a', x, y) {
      assert a == a';
      assert FollowedDouble(u, x - a, y - a);
    }
  }

  /** The exact condition on the text: a sanitized text holds a doubled separator if and only if
      the text bridges one between two letters or digits that both fit into the limit. */
  lemma {:induction false} DoubledIffKeptBridge(s: string, limit: nat)
    ensures Doubled(Sanitized(s, limit)) <==> KeepsBridge(s, limit)
  {
    DoubledSurvives(s, limit);
    if a, x, y :| InnerDouble(ScanAll(s).buf, limit, a, x, y) {
      BufferToText(s, limit, a, x, y);
    }
    if h, i, j, k :| InnerBridge(s, limit, h, i, j, k) {
      TextToBuffer(s, limit, h, i, j, k);
    }
  }

  /** A kept character stands in the buffer at the number of kept ones in front of it. */
  lemma {:induction false} BufferAt(s: string, p: nat)
    requires p < |s| && KeptAt(s, p)
    ensures |Positions(s, p)| < |ScanAll(s).buf| && ScanAll(s).buf[|Positions(s, p)|] == s[p]
  {
    assert s[..|s|] == s;
    BufferIsKept(s, |s|);
    IndexOfKept(s, |s|, p);
  }

  /** A buffer index belongs to a kept character. */
  lemma {:induction false} TextAt(s: string, b: nat) returns (p: nat)
    requires b < |ScanAll(s).buf|
    ensures p < |s| && KeptAt(s, p) && |Positions(s, p)| == b && s[p] == ScanAll(s).buf[b]
    ensures |Positions(s, |s|)| == |ScanAll(s).buf| && Positions(s, |s|)[b] == p
  {
    assert s[..|s|] == s;
    BufferIsKept(s, |s|);
    p := Positions(s, |s|)[b];
    IndexOfKept(s, |s|, p);
    assert forall c | 0 <= c < |Positions(s, |s|)| && Positions(s, |s|)[c] == p :: c == b;
  }

  /** In front of the first letter or digit only separators are kept. */
  lemma {:induction false} LeadingSeparators(s: string, h: nat, b: nat)
    requires h < |s| && (forall p | 0 <= p < h :: !LowerAlnum(s[p])) && KeptAt(s, h)
    requires b < |Positions(s, h)|
    ensures b < |ScanAll(s).buf| && Separator(ScanAll(s).buf[b])
  {
    BufferAt(s, h);
    var p := TextAt(s, b);
    if h <= p {
      CountIsDifference(s, h, p);
      assert false;
    }
  }

  lemma {:induction false} FirstAlnum(s: string, a: nat, h: nat)
    requires h < |s| && KeptAt(s, h) && a == |Positions(s, h)| < |ScanAll(s).buf|
    requires forall b | 0 <= b < a :: Separator(ScanAll(s).buf[b])
    ensures forall p | 0 <= p < h :: !LowerAlnum(s[p])
  {
    forall p | 0 <= p < h ensures !LowerAlnum(s[p]) {
      if LowerAlnum(s[p]) {
        BufferAt(s, p);
        IndexOfKept(s, h, p);
      }
    }
  }

  /** Kept characters stand in the buffer in their order, as far apart as the count says. */
  lemma {:induction false} IndicesInOrder(s: string, p: nat, q: nat)
    requires p < |s| && q < |s| && KeptAt(s, p) && KeptAt(s, q)
    ensures |Positions(s, p)| < |Positions(s, q)| <==> p < q
    ensures p <= q ==> |Positions(s, q)| + 1 == |Positions(s, p)| + KeptCount(s, p, q + 1)
  {
    if p < q {
      IndexOfKept(s, q, p);
    } else {
      CountIsDifference(s, q, p);
    }
    if p <= q {
      CountIsDifference(s, p, q + 1);
    }
  }

  lemma {:induction false} BridgeInBuffer(s: string, i: int, j: int) returns (x: nat)
    requires BridgeFrom(s, i, j)
    ensures x + 1 == |Positions(s, j)| < |ScanAll(s).buf|
    ensures ScanAll(s).buf[x] == ScanAll(s).buf[x + 1] && Separator(ScanAll(s).buf[x])
  {
    BufferAt(s, j);
    x := BridgeIndex(s, i, j);
    NeighboursIffBridge(s, x);
  }

  lemma {:induction false} BridgeInText(s: string, x: nat) returns (p: nat, i: nat, j: nat)
    requires x + 1 < |ScanAll(s).buf|
    requires ScanAll(s).buf[x] == ScanAll(s).buf[x + 1] && Separator(ScanAll(s).buf[x])
    ensures BridgeFrom(s, i, j) && p <= i && KeptAt(s, p) && KeptAt(s, j)
    ensures |Positions(s, p)| == x && |Positions(s, j)| == x + 1
  {
    p := TextAt(s, x);
    j := TextAt(s, x + 1);
    NeighboursIffBridge(s, x);
    i :| BridgeFrom(s, i, j);
    IndicesInOrder(s, p, j);
  }

  lemma {:induction false} BufferToText(s: string, limit: nat, a: int, x: int, y: int)
    requires InnerDouble(ScanAll(s).buf, limit, a, x, y)
    ensures KeepsBridge(s, limit)
  {
    var h := TextAt(s, a);
    var k := TextAt(s, y);
    var p, i, j := BridgeInText(s, x);
    IndicesInOrder(s, h, p);
    IndicesInOrder(s, j, k);
    IndicesInOrder(s, h, k);
    FirstAlnum(s, a, h);
    assert InnerBridge(s, limit, h, i, j, k);
  }

  lemma {:induction false} TextToBuffer(s: string, limit: nat, h: int, i: int, j: int, k: int)
    requires InnerBridge(s, limit, h, i, j, k)
    ensures exists a, x, y :: InnerDouble(ScanAll(s).buf, limit, a, x, y)
  {
    var buf := ScanAll(s).buf;
    var a, y := |Positions(s, h)|, |Positions(s, k)|;
    var x := BridgeInBuffer(s, i, j);
    BufferAt(s, h);
    BufferAt(s, k);
    IndicesInOrder(s, h, j);
    IndicesInOrder(s, j, k);
    IndicesInOrder(s, h, k);
    forall b | 0 <= b < a ensures Separator(buf[b]) {
      LeadingSeparators(s, h, b);
    }
    assert InnerDouble(buf, limit, a, x, y);
  }

  // ----- the whole name

  const DEFAULT_PREFIX := "user"
  const PREFIX_LENGTH: nat := 15

  /** The pattern whose whole match is erased: thirty-six characters, alphanumeric ends. */
  predicate LooksLikeId(s: string) {
    |s| == 36 && LowerAlnum(s[0]) && LowerAlnum(s[35]) && forall c | c in s :: Keeps(c)
  }

  function LocalPart(email: string): string {
    Split(email, '@')[0]
  }

  /** `extractEmailPrefix`; `lower` is the library's lower-casing. */
  function EmailPrefix(email: string, lower: string -> string): string {
    var prefix := LocalPart(email);
    var cleaned := Sanitized(if LooksLikeId(prefix) || prefix == "" then "" else lower(prefix), PREFIX_LENGTH);
    if cleaned == "" then DEFAULT_PREFIX else cleaned
  }

  /** Ten hexadecimal digits. */
  predicate HexSuffix(s: string) {
    |s| == 10 && forall c | c in s :: '0' <= c <= '9' || 'a' <= c <= 'f'
  }

  function GenerateUsername(email: string, lower: string -> string, suffix: string): string {
    EmailPrefix(email, lower) + "_" + suffix
  }

  /** A clean local part of at most fifteen characters is the prefix of the name as it stands; one
      that looks like an ID, or of which nothing is kept, gives the default prefix. */
  lemma {:induction false} GeneratedName(email: string, lower: string -> string, suffix: string)
    ensures var local := LocalPart(email);
      !LooksLikeId(local) && local != "" && lower(local) == local && |local| <= 15
      && (forall c | c in local :: Keeps(c)) && !Doubled(local) && AlnumEnds(local) ==>
        GenerateUsername(email, lower, suffix) == local + "_" + suffix
    ensures var local := LocalPart(email);
      (|local| == 36 && LowerAlnum(local[0]) && LowerAlnum(local[35]) && forall c | c in local :: Keeps(c))
      || local == "" || (forall c | c in lower(local) :: !LowerAlnum(c)) ==>
        GenerateUsername(email, lower, suffix) == "user" + "_" + suffix
  {
    var local := LocalPart(email);
    if |local| <= 15 && (forall c | c in local :: Keeps(c)) && !Doubled(local) && AlnumEnds(local) {
      CleanIsUnchanged(local, PREFIX_LENGTH);
    }
    if forall c | c in lower(local) :: !LowerAlnum(c) {
      SanitizedShape(lower(local), PREFIX_LENGTH);
      SubsequenceChars(Sanitized(lower(local), PREFIX_LENGTH), lower(local));
    }
  }

  lemma {:induction false} SubsequenceChars(a: string, b: string)
    requires Subsequence(a, b)
    ensures forall c | c in a :: c in b
    decreases |b|
  {
    if a != "" {
      var b' := b[..|b| - 1];
      if a[|a| - 1] == b[|b| - 1] && Subsequence(a[..|a| - 1], b') {
        SubsequenceChars(a[..|a| - 1], b');
        assert a == a[..|a| - 1] + [a[|a| - 1]];
      } else {
        SubsequenceChars(a, b');
      }
      assert forall c | c in b' :: c in b;
    }
  }

  lemma {:induction false} NameDoubles(prefix: string, suffix: string)
    requires prefix != "" && AlnumEnds(prefix) && HexSuffix(suffix)
    ensures Doubled(prefix + "_" + suffix) <==> Doubled(prefix)
  {
    var name := prefix + "_" + suffix;
    assert name[|prefix|] == '_' && name[|prefix| + 1] == suffix[0] && suffix[0] in suffix;
    if Doubled(prefix) {
      var i :| 0 <= i < |prefix| - 1 && prefix[i] == prefix[i + 1] && Separator(prefix[i]);
      assert name[i] == name[i + 1] && Separator(name[i]);
    }
    if Doubled(name) {
      var i :| 0 <= i < |name| - 1 && name[i] == name[i + 1] && Separator(name[i]);
      assert forall k | |prefix| < k < |name| :: name[k] == suffix[k - |prefix| - 1] && name[k] in suffix;
      assert prefix[i] == prefix[i + 1];
    }
  }

  lemma {:induction false} PrefixShape(email: string, lower: string -> string)
    ensures var prefix := EmailPrefix(email, lower);
      1 <= |prefix| <= PREFIX_LENGTH && AlnumEnds(prefix) && forall c | c in prefix :: Keeps(c)
  {
    var local := LocalPart(email);
    SanitizedShape(if LooksLikeId(local) || local == "" then "" else lower(local), PREFIX_LENGTH);
  }

  /** For every email and every lower-casing, the only thing the validator can object to is a
      doubled separator in the prefix. */
  lemma {:induction false} OnlyDoublingIsRefused(email: string, lower: string -> string, suffix: string)
    requires HexSuffix(suffix)
    ensures ValidUserName(GenerateUsername(email, lower, suffix)) <==> !Doubled(EmailPrefix(email, lower))
  {
    var prefix := EmailPrefix(email, lower);
    PrefixShape(email, lower);
    NameDoubles(prefix, suffix);
  }

  /** The exact condition on the email: the generated name is refused if and only if its local
      part, lower-cased, does not look like an ID and bridges a separator between two letters or
      digits within the first fifteen kept characters. */
  lemma {:induction false} ValidIffNoKeptBridge(email: string, lower: string -> string, suffix: string)
    requires HexSuffix(suffix)
    ensures var local := LocalPart(email);
      ValidUserName(GenerateUsername(email, lower, suffix)) <==>
        (local == "" || LooksLikeId(local) || !KeepsBridge(lower(local), PREFIX_LENGTH))
  {
    OnlyDoublingIsRefused(email, lower, suffix);
    var local := LocalPart(email);
    if local == "" || LooksLikeId(local) {
      assert Sanitized("", PREFIX_LENGTH) == "";
    } else {
      DoubledIffKeptBridge(lower(local), PREFIX_LENGTH);
    }
  }

  /** So a name is accepted whenever its lower-cased local part bridges no separator … */
  lemma {:induction false} UnbridgedIsAccepted(email: string, lower: string -> string, suffix: string)
    requires HexSuffix(suffix) && !Bridged(lower(LocalPart(email)))
    ensures ValidUserName(GenerateUsername(email, lower, suffix))
  {
    ValidIffNoKeptBridge(email, lower, suffix);
    var text := lower(LocalPart(email));
    forall h, i, j, k ensures !InnerBridge(text, PREFIX_LENGTH, h, i, j, k) {
      assert !BridgeFrom(text, i, j);
    }
  }

  /** … in particular for every local part of ASCII letters, digits, `-` and `_`. */
  lemma {:induction false} PlainLocalPartIsAccepted(email: string, lower: string -> string, suffix: string)
    requires HexSuffix(suffix)
    requires forall c | c in LocalPart(email) :: Alnum(c) || Separator(c)
    requires lower(LocalPart(email)) == LowerAscii(LocalPart(email))
    ensures ValidUserName(GenerateUsername(email, lower, suffix))
  {
    var local := LocalPart(email);
    var text := LowerAscii(local);
    forall i | 0 <= i < |text| ensures Keeps(text[i]) {
      assert local[i] in local;
    }
    forall i, j | 0 <= i && i + 1 < j < |text| ensures !BridgeFrom(text, i, j) {
      assert Keeps(text[i + 1]);
    }
    UnbridgedIsAccepted(email, lower, suffix);
  }

  lemma {:induction false} ScanOfBridged()
    ensures ScanAll("a_._b") == Scan("a__b", 'b')
  {
    var s5, s4, s3, s2, s1 := "a_._b", "a_._", "a_.", "a_", "a";
    assert s5[..4] == s4 && s4[..3] == s3 && s3[..2] == s2 && s2[..1] == s1 && s1[..0] == "";
    assert ScanAll(s1) == Scan("a", 'a');
    assert ScanAll(s2) == Scan("a_", '_');
    assert ScanAll(s3) == Scan("a_", NONE);
    assert ScanAll(s4) == Scan("a__", '_');
  }

  lemma {:induction false} LocalPartOf(local: string, domain: string)
    requires '@' !in local
    ensures LocalPart(local + "@" + domain) == local
  {
    SplitHead(local, domain, '@');
    assert local + "@" + domain == local + ['@'] + domain;
  }

  lemma {:induction false} PrefixOfBridged()
    ensures EmailPrefix("a_._b" + "@" + "x", LowerAscii) == "a__b"
  {
    LocalPartOf("a_._b", "x");
    assert LowerAscii("a_._b") == "a_._b";
    ScanOfBridged();
    assert Sanitized("a_._b", PREFIX_LENGTH) == "a__b";
  }

  /** A dot between two underscores is enough to be refused. */
  lemma {:induction false} BridgedNameIsRefused(suffix: string)
    requires HexSuffix(suffix)
    ensures !ValidUserName(GenerateUsername("a_._b" + "@" + "x", LowerAscii, suffix))
  {
    var email := "a_._b" + "@" + "x";
    PrefixOfBridged();
    var prefix := EmailPrefix(email, LowerAscii);
    assert prefix[1] == prefix[2] && Separator(prefix[1]);
    OnlyDoublingIsRefused(email, LowerAscii, suffix);
  }
}
