/** Option type shared by the whole model. */
module Common {
  datatype Option<T> = None | Some(value: T)
}

/**
 * String operations with the semantics of the Kotlin standard library calls the
 * app relies on: trim(), indexOf(), contains(), split("="), replace() and Int.toString().
 */
module Text {

  /**
   * Kotlin's Char.isWhitespace() on the JVM, that is Character.isWhitespace(c) ||
   * Character.isSpaceChar(c): the ASCII controls 9..13 and 28..31, the space, and the
   * Unicode space, line and paragraph separators.
   */
  predicate IsWhitespace(c: char)
    ensures IsWhitespace(c) ==> !IsDigit(c) && !IsLetter(c) && c != '.' && c != '_'
  {
    var n := c as int;
    (9 <= n <= 13) || (28 <= n <= 32) || n == 0xA0 || n == 0x1680
    || (0x2000 <= n <= 0x200A) || n == 0x2028 || n == 0x2029 || n == 0x202F
    || n == 0x205F || n == 0x3000
  }

  /** Char.isDigit() for the characters below 256: the ten ASCII digits. */
  predicate IsDigit(c: char)
    ensures IsDigit(c) ==> 0 <= c as int - '0' as int <= 9
  {
    '0' <= c <= '9'
  }

  predicate IsAsciiLetter(c: char) { ('a' <= c <= 'z') || ('A' <= c <= 'Z') }

  /**
   * Char.isLetter() for the characters below 256: the ASCII letters, the ordinal
   * indicators and the micro sign, and the Latin-1 letters other than the
   * multiplication and division signs. Letters at 256 and above are not modelled.
   */
  predicate IsLetter(c: char)
    ensures IsAsciiLetter(c) ==> IsLetter(c)
    ensures IsLetter(c) ==> !IsDigit(c) && c != '.' && c != '_' && c != '-'
  {
    var n := c as int;
    IsAsciiLetter(c) || n == 0xAA || n == 0xB5 || n == 0xBA
    || (0xC0 <= n <= 0xD6) || (0xD8 <= n <= 0xF6) || (0xF8 <= n <= 0xFF)
  }

  function TrimStart(s: string): (r: string)
    ensures |r| <= |s| && r == s[|s| - |r|..]
    ensures r == [] || !IsWhitespace(r[0])
    ensures forall k :: 0 <= k < |s| - |r| ==> IsWhitespace(s[k])
  {
    if s != [] && IsWhitespace(s[0]) then TrimStart(s[1..]) else s
  }

  function TrimEnd(s: string): (r: string)
    ensures |r| <= |s| && r == s[..|r|]
    ensures r == [] || !IsWhitespace(r[|r| - 1])
    ensures forall k :: |r| <= k < |s| ==> IsWhitespace(s[k])
  {
    if s != [] && IsWhitespace(s[|s| - 1]) then TrimEnd(s[..|s| - 1]) else s
  }

  /** Kotlin's String.trim(): drops leading and trailing whitespace. */
  function Trim(s: string): (r: string)
  {
    TrimEnd(TrimStart(s))
  }

  /** Trimming text with no leading whitespace leaves no whitespace at either end. */
  lemma {:induction false} TrimEnds(t: string)
    requires t == [] || !IsWhitespace(t[0])
    ensures var r := TrimEnd(t); r == [] || (!IsWhitespace(r[0]) && !IsWhitespace(r[|r| - 1]))
  {
    var r := TrimEnd(t);
    if r != [] {
      assert r[0] == t[0];
    }
  }

  lemma {:induction false} TrimStartNoLead(s: string)
    requires s == [] || !IsWhitespace(s[0])
    ensures TrimStart(s) == s
  {
  }

  lemma {:induction false} TrimEndNoTrail(s: string)
    requires s == [] || !IsWhitespace(s[|s| - 1])
    ensures TrimEnd(s) == s
  {
  }

  /** trim() leaves nothing exactly when every character is whitespace. */
  lemma {:induction false} TrimBlank(s: string)
    ensures Trim(s) == [] <==> forall k :: 0 <= k < |s| ==> IsWhitespace(s[k])
  {
    var t := TrimStart(s);
    var i := |s| - |t|;
    if Trim(s) == [] {
      assert |TrimEnd(t)| == 0;
    }
    if forall k :: 0 <= k < |s| ==> IsWhitespace(s[k]) {
      if t != [] {
        assert t[0] == s[i];
      }
    }
  }

  /** Text with a visible character keeps one under any prefix. */
  lemma NonBlankAfterPrefix(prefix: string, s: string)
    requires Trim(s) != []
    ensures Trim(prefix + s) != []
  {
    TrimBlank(s);
    var k :| 0 <= k < |s| && !IsWhitespace(s[k]);
    assert (prefix + s)[|prefix| + k] == s[k];
    TrimBlank(prefix + s);
  }

  /** Trimming twice is trimming once. */
  lemma {:induction false} TrimIdempotent(s: string)
    ensures Trim(Trim(s)) == Trim(s)
  {
    TrimEnds(TrimStart(s));
    var r := Trim(s);
    TrimStartNoLead(r);
    TrimEndNoTrail(r);
  }

  /** s contains sub starting at index k. */
  predicate OccursAt(s: string, sub: string, k: int)
  {
    0 <= k && k + |sub| <= |s| && s[k..k + |sub|] == sub
  }

  function IndexOfFrom(s: string, sub: string, i: nat): (r: int)
    requires i <= |s|
    ensures r == -1 || (i <= r && OccursAt(s, sub, r))
    ensures r == -1 ==> forall k :: i <= k ==> !OccursAt(s, sub, k)
    ensures r != -1 ==> forall k :: i <= k < r ==> !OccursAt(s, sub, k)
    decreases |s| - i
  {
    if i + |sub| > |s| then -1
    else if s[i..i + |sub|] == sub then i
    else if i == |s| then -1
    else IndexOfFrom(s, sub, i + 1)
  }

  /** Kotlin's String.indexOf(sub): the first index where sub occurs, or -1. */
  function IndexOf(s: string, sub: string): (r: int)
    ensures r == -1 <==> forall k :: !OccursAt(s, sub, k)
    ensures r != -1 ==> OccursAt(s, sub, r) && forall k :: 0 <= k < r ==> !OccursAt(s, sub, k)
  {
    IndexOfFrom(s, sub, 0)
  }

  /** Kotlin's split("=") on one separator character: every part is kept, empty ones too. */
  function Split(s: string, sep: char): (parts: seq<string>)
    ensures |parts| >= 1
    ensures forall k :: 0 <= k < |parts| ==> sep !in parts[k]
  {
    if s == [] then [""]
    else
      var rest := Split(s[1..], sep);
      assert s == [s[0]] + s[1..];
      if s[0] == sep then [""] + rest
      else [[s[0]] + rest[0]] + rest[1..]
  }

  function Join(parts: seq<string>, sep: char): string
    requires |parts| >= 1
  {
    if |parts| == 1 then parts[0] else parts[0] + [sep] + Join(parts[1..], sep)
  }

  /** Splitting loses nothing: joining the parts back with the separator gives the input. */
  lemma {:induction false} SplitJoin(s: string, sep: char)
    ensures Join(Split(s, sep), sep) == s
  {
    if s != [] {
      SplitJoin(s[1..], sep);
      var rest := Split(s[1..], sep);
      assert s == [s[0]] + s[1..];
      if s[0] == sep {
        assert Split(s, sep) == [""] + rest;
        assert ([""] + rest)[1..] == rest;
        assert Join([""] + rest, sep) == [sep] + Join(rest, sep);
      } else {
        assert Split(s, sep) == [[s[0]] + rest[0]] + rest[1..];
        JoinFirstPart(s[0], rest, sep);
      }
    }
  }

  /** Putting a character in front of the first part puts it in front of the joined text. */
  lemma {:induction false} JoinFirstPart(c: char, parts: seq<string>, sep: char)
    requires |parts| >= 1
    ensures Join([[c] + parts[0]] + parts[1..], sep) == [c] + Join(parts, sep)
  {
    var q := [[c] + parts[0]] + parts[1..];
    assert q[1..] == parts[1..];
  }

  /** Kotlin's replace(target, replacement) for a non-empty target: left to right, non-overlapping. */
  function ReplaceNonEmpty(s: string, target: string, replacement: string): string
    requires target != []
    decreases |s|
  {
    if |s| < |target| then s
    else if s[..|target|] == target then replacement + ReplaceNonEmpty(s[|target|..], target, replacement)
    else [s[0]] + ReplaceNonEmpty(s[1..], target, replacement)
  }

  /** replace("", replacement) puts replacement before every character and at the end. */
  function Interleave(s: string, replacement: string): string
  {
    if s == [] then replacement else replacement + [s[0]] + Interleave(s[1..], replacement)
  }

  /** Kotlin's String.replace(oldValue, newValue). */
  function Replace(s: string, target: string, replacement: string): string
  {
    if target == [] then Interleave(s, replacement) else ReplaceNonEmpty(s, target, replacement)
  }

  /** Replacing a non-empty text that does not occur leaves the string unchanged. */
  lemma {:induction false} ReplaceAbsent(s: string, target: string, replacement: string)
    requires target != []
    requires forall k :: !OccursAt(s, target, k)
    ensures Replace(s, target, replacement) == s
  {
    if |s| >= |target| {
      assert !OccursAt(s, target, 0);
      assert s[..|target|] != target;
      forall k ensures OccursAt(s[1..], target, k) == OccursAt(s, target, k + 1) {
        if 0 <= k && k + |target| <= |s| - 1 {
          assert s[1..][k..k + |target|] == s[k + 1..k + 1 + |target|];
        }
      }
      ReplaceAbsent(s[1..], target, replacement);
      assert s == [s[0]] + s[1..];
    }
  }

  /** Replacing a whole non-empty text by another gives the other. */
  lemma {:induction false} ReplaceWhole(s: string, replacement: string)
    requires s != []
    ensures Replace(s, s, replacement) == replacement
  {
    assert s[..|s|] == s;
    var rest := s[|s|..];
    assert rest == [] && ReplaceNonEmpty(rest, s, replacement) == [];
    assert replacement + [] == replacement;
  }

  /** trim() only removes characters, so a character absent from s is absent from Trim(s). */
  lemma {:induction false} TrimExcludes(s: string, c: char)
    requires c !in s
    ensures c !in Trim(s)
  {
    var t := TrimStart(s);
    var r := TrimEnd(t);
    forall k | 0 <= k < |r|
      ensures r[k] != c
    {
      assert r[k] == t[k] == s[|s| - |t| + k];
    }
  }

  function DigitChar(d: nat): char
    requires d < 10
  {
    ('0' as int + d) as char
  }

  function NatToString(n: nat): (r: string)
    ensures |r| >= 1 && forall k :: 0 <= k < |r| ==> IsDigit(r[k])
    decreases n
  {
    if n < 10 then [DigitChar(n)] else NatToString(n / 10) + [DigitChar(n % 10)]
  }

  /** The decimal text of a positive number does not start with '0'. */
  lemma {:induction false} NatToStringLead(n: nat)
    requires n >= 1
    ensures NatToString(n)[0] != '0'
    decreases n
  {
    if n >= 10 {
      NatToStringLead(n / 10);
    }
  }

  /** Kotlin's Int.toString(): decimal digits, with a leading '-' for negative values. */
  function IntToString(v: int): (r: string)
    ensures |r| >= 1
    ensures r[0] == '-' <==> v < 0
  {
    if v < 0 then "-" + NatToString(-v) else NatToString(v)
  }
}

/**
 * Kotlin's LinkedHashMap, as the app uses it (mutableMapOf and toMap()): entries are
 * kept in first-insertion order, and putting an existing key replaces its value in place.
 */
module LinkedMaps {
  import opened Common

  type LinkedMap<K, V> = seq<(K, V)>

  function Keys<K(==,!new), V>(m: LinkedMap<K, V>): (ks: seq<K>)
    ensures |ks| == |m| && forall i :: 0 <= i < |m| ==> ks[i] == m[i].0
  {
    if m == [] then [] else [m[0].0] + Keys(m[1..])
  }

  predicate UniqueKeys<K(==,!new), V>(m: LinkedMap<K, V>)
  {
    forall i, j :: 0 <= i < j < |m| ==> m[i].0 != m[j].0
  }

  function Get<K(==,!new), V>(m: LinkedMap<K, V>, k: K): (r: Option<V>)
    ensures r.None? <==> k !in Keys(m)
  {
    if m == [] then None
    else if m[0].0 == k then Some(m[0].1)
    else Get(m[1..], k)
  }

  /** map[k] = v: replaces the value of an existing key in place, otherwise appends. */
  function Put<K(==,!new), V>(m: LinkedMap<K, V>, k: K, v: V): (r: LinkedMap<K, V>)
  {
    if m == [] then [(k, v)]
    else if m[0].0 == k then [(k, v)] + m[1..]
    else [m[0]] + Put(m[1..], k, v)
  }

  /** Put stores v under k and leaves every other key alone. */
  lemma {:induction false} PutGet<K(!new), V>(m: LinkedMap<K, V>, k: K, v: V)
    ensures Get(Put(m, k, v), k) == Some(v)
    ensures forall k' :: k' != k ==> Get(Put(m, k, v), k') == Get(m, k')
  {
    if m != [] && m[0].0 != k {
      PutGet(m[1..], k, v);
    }
  }

  /** Put keeps the key order: an existing key stays where it is, a new one goes last. */
  lemma {:induction false} PutKeys<K(!new), V>(m: LinkedMap<K, V>, k: K, v: V)
    ensures k in Keys(m) ==> Keys(Put(m, k, v)) == Keys(m)
    ensures k !in Keys(m) ==> Keys(Put(m, k, v)) == Keys(m) + [k]
  {
    if m != [] && m[0].0 != k {
      PutKeys(m[1..], k, v);
      var rest := Put(m[1..], k, v);
      assert ([m[0]] + rest)[1..] == rest;
      assert Keys(m) == [m[0].0] + Keys(m[1..]);
    }
  }

  /** Putting a key the map does not hold appends the entry. */
  lemma {:induction false} PutNew<K(!new), V>(m: LinkedMap<K, V>, k: K, v: V)
    requires k !in Keys(m)
    ensures Put(m, k, v) == m + [(k, v)]
  {
    if m != [] {
      assert Keys(m) == [m[0].0] + Keys(m[1..]);
      PutNew(m[1..], k, v);
      assert [m[0]] + (m[1..] + [(k, v)]) == m + [(k, v)];
    }
  }

  /** Putting the value a key already has changes nothing. */
  lemma {:induction false} PutSame<K(!new), V>(m: LinkedMap<K, V>, k: K, v: V)
    requires Get(m, k) == Some(v)
    ensures Put(m, k, v) == m
  {
    if m[0].0 == k {
      assert m[0] == (k, v);
      assert [(k, v)] + m[1..] == m;
    } else {
      PutSame(m[1..], k, v);
      assert [m[0]] + m[1..] == m;
    }
  }

  lemma {:induction false} PutUnique<K(!new), V>(m: LinkedMap<K, V>, k: K, v: V)
    requires UniqueKeys(m)
    ensures UniqueKeys(Put(m, k, v))
  {
    PutKeys(m, k, v);
    var r := Put(m, k, v);
    assert forall i :: 0 <= i < |r| ==> r[i].0 == Keys(r)[i];
    assert forall i :: 0 <= i < |m| ==> m[i].0 == Keys(m)[i];
  }
}
