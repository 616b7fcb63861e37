/**
 * Separator-framed serialisation of key/value maps, as fed to SHA-256 by the secret, ConfigMap and
 * resource digests: each key, a separator, its value, a terminator, in sorted key order.
 */
module Framing {
  import opened Ordering

  const NUL: char := '\0'
  const SOH: char := '\U{01}'
  const NL: char := '\n'

  predicate TellsApart(sha: string -> string, a: string, b: string) {
    sha(a) == sha(b) ==> a == b
  }

  predicate Printable(sha: string -> string, a: string) {
    sha(a) != "" && NUL !in sha(a) && SOH !in sha(a)
  }

  /** The hash the digests use, idealised: injective, and printing neither nothing nor a separator. */
  ghost predicate IdealHash(sha: string -> string) {
    && (forall a, b :: TellsApart(sha, a, b))
    && (forall a :: Printable(sha, a))
  }

  function Spell(c: char): (r: string)
    ensures |r| == 2
  {
    if c == NUL then "0-" else if c == SOH then "1-" else if c == NL then "2-" else ['c', c]
  }

  /** The idealisation is consistent: this spelling-out meets it. */
  function SpellOut(s: string): string {
    if s == "" then "h" else Spell(s[0]) + SpellOut(s[1..])
  }

  lemma SpellInjective(c: char, d: char)
    requires Spell(c) == Spell(d)
    ensures c == d
  {
    assert Spell(c)[0] == Spell(d)[0] && Spell(c)[1] == Spell(d)[1];
  }

  lemma SpellHead(s: string)
    requires s != ""
    ensures SpellOut(s)[..2] == Spell(s[0]) && SpellOut(s)[2..] == SpellOut(s[1..])
  {}

  lemma SpellOutEmpty(s: string)
    ensures s == "" <==> |SpellOut(s)| < 2
  {}

  lemma {:induction false} SpellOutInjective(a: string, b: string)
    requires SpellOut(a) == SpellOut(b)
    ensures a == b
    decreases |a|
  {
    hide SpellOut;
    hide Spell;
    SpellOutEmpty(a);
    SpellOutEmpty(b);
    if a != "" {
      SpellHead(a);
      SpellHead(b);
      SpellInjective(a[0], b[0]);
      SpellOutInjective(a[1..], b[1..]);
      assert a == [a[0]] + a[1..] && b == [b[0]] + b[1..];
    }
  }

  lemma {:induction false} SpellOutAvoids(s: string, separator: char)
    requires separator in {NUL, SOH, NL}
    ensures SpellOut(s) != "" && separator !in SpellOut(s)
    decreases |s|
  {
    if s != "" {
      assert separator !in Spell(s[0]);
      hide Spell;
      SpellOutAvoids(s[1..], separator);
    }
  }

  lemma SpellOutPrintable(s: string)
    ensures SpellOut(s) != "" && NUL !in SpellOut(s) && SOH !in SpellOut(s) && NL !in SpellOut(s)
  {
    SpellOutAvoids(s, NUL);
    SpellOutAvoids(s, SOH);
    SpellOutAvoids(s, NL);
  }

  lemma IdealHashExists()
    ensures IdealHash(SpellOut)
  {
    forall a, b ensures TellsApart(SpellOut, a, b) {
      if SpellOut(a) == SpellOut(b) { SpellOutInjective(a, b); }
    }
    forall a ensures Printable(SpellOut, a) { SpellOutPrintable(a); }
  }

  // ----- Splitting at a separator -----

  lemma SplitFirst(a: string, x: string, b: string, y: string, c: char)
    requires c !in a && c !in b
    requires a + [c] + x == b + [c] + y
    ensures a == b && x == y
  {
    var s := a + [c] + x;
    assert s[|a|] == c && s[|b|] == c;
    assert forall i | 0 <= i < |a| :: s[i] == a[i] != c;
    assert forall i | 0 <= i < |b| :: s[i] == b[i] != c;
    assert |a| == |b|;
    assert a == s[..|a|] && b == s[..|b|];
    assert x == s[|a| + 1..] && y == s[|b| + 1..];
  }

  lemma SplitLast(a: string, x: string, b: string, y: string, c: char)
    requires c !in x && c !in y
    requires a + [c] + x == b + [c] + y
    ensures a == b && x == y
  {
    var s := a + [c] + x;
    assert s[|a|] == c && s[|b|] == c;
    assert forall i | |a| < i < |s| :: s[i] == x[i - |a| - 1] != c;
    assert forall i | |b| < i < |s| :: s[i] == y[i - |b| - 1] != c;
    assert |a| == |b|;
    assert a == s[..|a|] && b == s[..|b|];
    assert x == s[|a| + 1..] && y == s[|b| + 1..];
  }

  /** The text before the last `c`. */
  function BeforeLast(s: string, c: char): (p: string)
    requires c in s
    ensures |p| < |s| && p == s[..|p|] && s[|p|] == c && c !in s[|p| + 1..]
  {
    var n := |s| - 1;
    assert s == s[..n] + [s[n]];
    if s[n] == c then s[..n] else BeforeLast(s[..n], c)
  }

  /** And the text after it. */
  function AfterLast(s: string, c: char): (q: string)
    requires c in s
    ensures c !in q && s == BeforeLast(s, c) + [c] + q
  {
    s[|BeforeLast(s, c)| + 1..]
  }

  lemma LastOf(p: string, q: string, c: char)
    ensures p <= BeforeLast(p + [c] + q, c)
    ensures c !in q ==> BeforeLast(p + [c] + q, c) == p && AfterLast(p + [c] + q, c) == q
  {
    var s := p + [c] + q;
    var before := BeforeLast(s, c);
    assert s[|p|] == c && forall i | |before| < i < |s| :: s[i] == s[|before| + 1..][i - |before| - 1];
    if c !in q { SplitLast(before, AfterLast(s, c), p, q, c); }
  }

  // ----- Framed entries -----

  type Entry = (string, string)

  function Frame(e: Entry, mid: char, end: char): string {
    e.0 + [mid] + e.1 + [end]
  }

  function Frames(es: seq<Entry>, mid: char, end: char): string {
    if es == [] then "" else Frame(es[0], mid, end) + Frames(es[1..], mid, end)
  }

  lemma {:induction false} FramesAppend(es: seq<Entry>, e: Entry, mid: char, end: char)
    ensures Frames(es + [e], mid, end) == Frames(es, mid, end) + Frame(e, mid, end)
    decreases |es|
  {
    if es == [] {
      assert [e][1..] == [];
    } else {
      assert (es + [e])[1..] == es[1..] + [e];
      FramesAppend(es[1..], e, mid, end);
    }
  }

  /** One round of a digest loop. */
  lemma FramesStep(es: seq<Entry>, i: nat, mid: char, end: char)
    requires i < |es|
    ensures Frames(es[..i + 1], mid, end) == Frames(es[..i], mid, end) + es[i].0 + [mid] + es[i].1 + [end]
  {
    assert es[..i + 1] == es[..i] + [es[i]];
    FramesAppend(es[..i], es[i], mid, end);
  }

  predicate Separable(es: seq<Entry>, mid: char, end: char) {
    forall i | 0 <= i < |es| :: mid !in es[i].0 && end !in es[i].1
  }

  /** Framed entries decode uniquely when no key holds the separator and no value the terminator. */
  lemma {:induction false} FramesInjective(es: seq<Entry>, fs: seq<Entry>, mid: char, end: char)
    requires Separable(es, mid, end) && Separable(fs, mid, end)
    requires Frames(es, mid, end) == Frames(fs, mid, end)
    ensures es == fs
    decreases |es|
  {
    if es != [] && fs != [] {
      var e, f := es[0], fs[0];
      var er, fr := Frames(es[1..], mid, end), Frames(fs[1..], mid, end);
      assert Frames(es, mid, end) == e.0 + [mid] + (e.1 + [end] + er);
      assert Frames(fs, mid, end) == f.0 + [mid] + (f.1 + [end] + fr);
      SplitFirst(e.0, e.1 + [end] + er, f.0, f.1 + [end] + fr, mid);
      SplitFirst(e.1, er, f.1, fr, end);
      FramesInjective(es[1..], fs[1..], mid, end);
      assert es == [e] + es[1..] && fs == [f] + fs[1..];
    }
  }

  // ----- Maps -----

  type StringMap = map<string, string>

  function Entries(keys: seq<string>, data: StringMap): (es: seq<Entry>)
    requires forall k | k in keys :: k in data
    ensures |es| == |keys|
    ensures forall i | 0 <= i < |keys| :: es[i] == (keys[i], data[keys[i]])
  {
    seq(|keys|, i requires 0 <= i < |keys| => (keys[i], data[keys[i]]))
  }

  /** The canonical byte string of a map: its entries framed in sorted key order. */
  ghost function Serialised(data: StringMap, mid: char, end: char): string {
    Frames(Entries(SortedStrings(data.Keys), data), mid, end)
  }

  predicate MapSeparable(data: StringMap, mid: char, end: char) {
    forall k | k in data :: mid !in k && end !in data[k]
  }

  lemma SerialisedInjective(a: StringMap, b: StringMap, mid: char, end: char)
    requires MapSeparable(a, mid, end) && MapSeparable(b, mid, end)
    ensures Serialised(a, mid, end) == Serialised(b, mid, end) <==> a == b
  {
    if Serialised(a, mid, end) == Serialised(b, mid, end) {
      var ka, kb := SortedStrings(a.Keys), SortedStrings(b.Keys);
      var ea, eb := Entries(ka, a), Entries(kb, b);
      FramesInjective(ea, eb, mid, end);
      forall i | 0 <= i < |ka| ensures ka[i] == kb[i] && a[ka[i]] == b[ka[i]] {
        assert ea[i] == eb[i];
      }
      assert ka == kb;
      forall k ensures k in a <==> k in b {
        assert k in ka <==> k in a;
        assert k in kb <==> k in b;
      }
      forall k | k in a ensures a[k] == b[k] {
        assert k in ka;
      }
      assert a == b;
    }
  }

  /** What a digest of a string map must be: nothing for no data, else the hash of the sorted frames. */
  ghost function FramedDigest(data: StringMap, mid: char, end: char, sha: string -> string): string {
    if |data| == 0 then "" else sha(Serialised(data, mid, end))
  }

  /** Separable maps have equal digests only when they are equal. */
  lemma FramedDigestComplete(a: StringMap, b: StringMap, mid: char, end: char, sha: string -> string)
    requires IdealHash(sha) && MapSeparable(a, mid, end) && MapSeparable(b, mid, end)
    ensures FramedDigest(a, mid, end, sha) == FramedDigest(b, mid, end, sha) <==> a == b
    ensures NUL !in FramedDigest(a, mid, end, sha) && (FramedDigest(a, mid, end, sha) == "" <==> a == map[])
  {
    var ta, tb := Serialised(a, mid, end), Serialised(b, mid, end);
    SerialisedInjective(a, b, mid, end);
    hide Serialised;
    assert TellsApart(sha, ta, tb) && Printable(sha, ta) && Printable(sha, tb);
    if |a| == 0 && |b| == 0 { assert a == b; }
  }

  /** The loop shared by the digests: frame the entries of a map over its sorted keys. */
  method Serialise(data: StringMap, mid: char, end: char) returns (buf: string)
    ensures buf == Serialised(data, mid, end)
  {
    LexIsTotalPreorder();
    var keys := SortedKeys(data, LexLe);
    LexListingIsUnique(keys, SortedStrings(data.Keys), data.Keys);
    ghost var es := Entries(keys, data);
    buf := "";
    for i := 0 to |keys|
      invariant buf == Frames(es[..i], mid, end)
    {
      FramesStep(es, i, mid, end);
      var k := keys[i];
      buf := buf + k + [mid] + data[k] + [end];
    }
    assert es[..|keys|] == es;
  }

  method HashFramed(data: StringMap, mid: char, end: char, sha: string -> string) returns (digest: string)
    ensures digest == FramedDigest(data, mid, end, sha)
  {
    if |data| == 0 { return ""; }
    var buf := Serialise(data, mid, end);
    digest := sha(buf);
  }
}
