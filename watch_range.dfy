/**
 * Range resolution for WATCH_CREATE: the prefix end key, the key order the
 * store uses for ranges, and the option list handed to the watch call.
 */
module WatchRange {
  import opened Base

  /** The decoded body of a WATCH_CREATE request; absent JSON fields are None. */
  datatype WatchSpec = WatchSpec(
    timeout: Option<nat>,
    key: Bytes,
    isPrefix: Option<bool>,
    range: Option<Bytes>,
    rev: Option<int>,
    prev: Option<bool>)

  /** The watch options the source builds (WithRange, WithRev, WithPrevKV). */
  datatype OpOption = WithRange(end: Bytes) | WithRev(rev: int) | WithPrevKV

  predicate PrefixRequested(spec: WatchSpec) {
    spec.isPrefix == Some(true)
  }

  /**
   * Go's `string(c)` for a `byte` c: the UTF-8 encoding of the code point c,
   * which is the byte itself below 0x80 and two bytes from 0x80 on.
   */
  function RuneBytes(c: byte): (s: Bytes)
    ensures c < 0x80 ==> s == [c]
    ensures c >= 0x80 ==> |s| == 2 && 0xC2 <= s[0] <= 0xC3 && 0x80 <= s[1] <= 0xBF
  {
    if c < 0x80 then [c]
    else [(0xC0 + c as int / 64) as byte, (0x80 + c as int % 64) as byte]
  }

  /** The two bytes of a code point from 0x80 on decode back to it. */
  lemma RuneBytesDecode(c: byte)
    requires c >= 0x80
    ensures (RuneBytes(c)[0] as int - 0xC0) * 64 + (RuneBytes(c)[1] as int - 0x80) == c as int
  {
  }

  /**
   * The end key of a prefix watch as the source computes it: the last byte
   * of `key` is incremented as a Go `byte` (0xFF wraps to 0x00) and turned
   * back into a string with `string(ch)`, which UTF-8-encodes it. The source
   * indexes the last byte without a check and panics on an empty key.
   */
  function PrefixEnd(key: Bytes): (end: Bytes)
    requires |key| > 0
    ensures |key| <= |end| <= |key| + 1
    ensures end[..|key| - 1] == key[..|key| - 1]
    ensures key[|key| - 1] < 0x7F || key[|key| - 1] == 0xFF ==>
      |end| == |key| && end[|key| - 1] as int == (key[|key| - 1] as int + 1) % 256
    ensures 0x7F <= key[|key| - 1] < 0xFF ==>
      && |end| == |key| + 1
      && end[|key| - 1..] == RuneBytes(key[|key| - 1] + 1)
  {
    var ch := ((key[|key| - 1] as int + 1) % 256) as byte;
    key[..|key| - 1] + RuneBytes(ch)
  }

  /** Strict byte-wise lexicographic order, the order of keys in the store. */
  predicate Below(a: Bytes, b: Bytes) {
    if |b| == 0 then false
    else if |a| == 0 then true
    else if a[0] != b[0] then a[0] < b[0]
    else Below(a[1..], b[1..])
  }

  /**
   * The keys a watch on [start, end) covers, for a non-empty end key. By the
   * store's convention the end key "\x00" stands for every key from `start`
   * on. (An empty end key, which watches the single key `start`, is not
   * described here.)
   */
  predicate InRange(k: Bytes, start: Bytes, end: Bytes) {
    !Below(k, start) && (end == [0] || Below(k, end))
  }

  lemma {:induction false} BelowIrreflexive(a: Bytes)
    ensures !Below(a, a)
    decreases |a|
  {
    if |a| > 0 {
      BelowIrreflexive(a[1..]);
    }
  }

  lemma {:induction false} BelowTransitive(a: Bytes, b: Bytes, c: Bytes)
    requires Below(a, b) && Below(b, c)
    ensures Below(a, c)
    decreases |a|
  {
    if |a| > 0 && a[0] == b[0] && b[0] == c[0] {
      BelowTransitive(a[1..], b[1..], c[1..]);
    }
  }

  /** Two different keys are ordered one way or the other. */
  lemma {:induction false} BelowTotal(a: Bytes, b: Bytes)
    ensures Below(a, b) || a == b || Below(b, a)
    decreases |a|
  {
    if |a| > 0 && |b| > 0 && a[0] == b[0] {
      BelowTotal(a[1..], b[1..]);
      if a[1..] == b[1..] {
        assert a == [a[0]] + a[1..] && b == [b[0]] + b[1..];
      }
    }
  }

  /** A common first part does not change the order of two keys. */
  lemma {:induction false} BelowCommonPrefix(p: Bytes, x: Bytes, y: Bytes)
    ensures Below(p + x, p + y) == Below(x, y)
    decreases |p|
  {
    if |p| == 0 {
      assert p + x == x && p + y == y;
    } else {
      assert (p + x)[1..] == p[1..] + x && (p + y)[1..] == p[1..] + y;
      BelowCommonPrefix(p[1..], x, y);
    }
  }

  /**
   * Keys between two keys that differ only in their last byte are exactly
   * the extensions of the common part whose next byte lies between the two.
   */
  lemma {:induction false} BetweenCommonPrefix(p: Bytes, a: byte, b: byte, k: Bytes)
    ensures (!Below(k, p + [a]) && Below(k, p + [b])) <==>
            |k| > |p| && k[..|p|] == p && a <= k[|p|] < b
    decreases |p|
  {
    if |p| == 0 {
      assert p + [a] == [a] && p + [b] == [b];
      if |k| > 0 {
        assert ([a])[1..] == [] && ([b])[1..] == [];
        assert k[..|p|] == p;
        assert !Below(k[1..], []);
      }
    } else if |k| > 0 {
      var q := p[1..];
      assert (p + [a])[0] == p[0] && (p + [a])[1..] == q + [a];
      assert (p + [b])[0] == p[0] && (p + [b])[1..] == q + [b];
      BetweenCommonPrefix(q, a, b, k[1..]);
      if |k| > |p| {
        assert k[..|p|] == [k[0]] + k[1..][..|q|];
        assert p == [p[0]] + q;
        assert k[|p|] == k[1..][|q|];
      }
    }
  }

  /**
   * When the last byte of `key` is below 0x7F, the prefix range
   * [key, PrefixEnd(key)) holds exactly the keys that start with `key`.
   */
  lemma PrefixRangeExact(key: Bytes, k: Bytes)
    requires |key| > 0 && key[|key| - 1] < 0x7F
    ensures InRange(k, key, PrefixEnd(key)) <==> |k| >= |key| && k[..|key|] == key
  {
    var n := |key| - 1;
    var p := key[..n];
    var last := key[n];
    assert key == p + [last];
    assert PrefixEnd(key) == p + [last + 1];
    assert PrefixEnd(key) != [0];
    BetweenCommonPrefix(p, last, last + 1, k);
    if |k| >= |key| && k[..|key|] == key {
      assert k[..n] == key[..n];
    }
    if |k| > n && k[..n] == p && k[n] == last {
      assert k[..|key|] == k[..n] + [k[n]];
    }
  }

  /**
   * When the last byte of `key` is 0x7F to 0xC2, the two-byte encoding of the
   * incremented byte makes the range too wide: every key that starts with
   * `key` is in range, and so is the key with its last byte incremented,
   * which does not start with `key`.
   */
  lemma PrefixRangeTooWide(key: Bytes, k: Bytes)
    requires |key| > 0 && 0x7F <= key[|key| - 1] <= 0xC2
    ensures |k| >= |key| && k[..|key|] == key ==> InRange(k, key, PrefixEnd(key))
    ensures
      var k := key[..|key| - 1] + [key[|key| - 1] + 1];
      InRange(k, key, PrefixEnd(key)) && !(|k| >= |key| && k[..|key|] == key)
  {
    if |k| >= |key| && k[..|key|] == key {
      PrefixRangeTooWideCovers(key, k);
    }
    PrefixRangeTooWideLeaks(key);
  }

  /** Under the conditions of `PrefixRangeTooWide`, a key that starts with `key` is in range. */
  lemma PrefixRangeTooWideCovers(key: Bytes, k: Bytes)
    requires |key| > 0 && 0x7F <= key[|key| - 1] <= 0xC2
    requires |k| >= |key| && k[..|key|] == key
    ensures InRange(k, key, PrefixEnd(key))
  {
    var n := |key| - 1;
    var p := key[..n];
    var last := key[n];
    var end := PrefixEnd(key);
    var tail := end[n..];
    assert key == p + [last];
    assert end == p + tail && |tail| == 2;
    assert tail[0] as int == 0xC0 + (last as int + 1) / 64;
    assert k == p + k[n..] && k[n..][0] == last;
    BelowCommonPrefix(p, k[n..], tail);
    BelowCommonPrefix(p, k[n..], [last]);
    assert !Below(k[n..], [last]) by {
      assert k[n..][1..] == k[n + 1..] && ([last])[1..] == [];
    }
  }

  /** Under the conditions of `PrefixRangeTooWide`, the key with its last byte incremented is in range and does not start with `key`. */
  lemma PrefixRangeTooWideLeaks(key: Bytes)
    requires |key| > 0 && 0x7F <= key[|key| - 1] <= 0xC2
    ensures
      var k := key[..|key| - 1] + [key[|key| - 1] + 1];
      InRange(k, key, PrefixEnd(key)) && !(|k| >= |key| && k[..|key|] == key)
  {
    var n := |key| - 1;
    var p := key[..n];
    var last := key[n];
    var k := p + [last + 1];
    var end := PrefixEnd(key);
    var tail := end[n..];
    assert key == p + [last];
    assert end == p + tail && |tail| == 2;
    assert tail[0] as int == 0xC0 + (last as int + 1) / 64;
    BelowCommonPrefix(p, [last + 1], [last]);
    BelowCommonPrefix(p, [last + 1], tail);
    if last + 1 == tail[0] {
      assert ([last + 1])[1..] == [] && tail[1..] == [tail[1]];
    }
    assert k[..|key|] == k && k[n] != key[n];
  }

  /**
   * When the last byte of `key` is 0xC3, the range is too narrow: the end key
   * is `key` followed by 0x84, which starts with `key` and is not in range.
   */
  lemma PrefixRangeTooNarrow(key: Bytes)
    requires |key| > 0 && key[|key| - 1] == 0xC3
    ensures PrefixEnd(key) == key + [0x84]
    ensures !InRange(key + [0x84], key, PrefixEnd(key))
  {
    var n := |key| - 1;
    assert key == key[..n] + [0xC3];
    assert PrefixEnd(key) == key[..n] + [0xC3, 0x84];
    BelowIrreflexive(key + [0x84]);
  }

  /** A range whose end key sorts below its start key (and is not "\x00") covers nothing. */
  lemma EmptyWhenEndBelow(start: Bytes, end: Bytes, k: Bytes)
    requires Below(end, start) && end != [0]
    ensures !InRange(k, start, end)
  {
    if InRange(k, start, end) {
      BelowTotal(k, start);
      if k != start {
        BelowTransitive(start, k, end);
      }
      BelowTransitive(start, end, start);
      BelowIrreflexive(start);
    }
  }

  /**
   * When the last byte of `key` is 0xC4 to 0xFE, the end key sorts below
   * `key` and the range covers no key at all.
   */
  lemma PrefixRangeEmpty(key: Bytes, k: Bytes)
    requires |key| > 0 && 0xC4 <= key[|key| - 1] < 0xFF
    ensures Below(PrefixEnd(key), key)
    ensures !InRange(k, key, PrefixEnd(key))
  {
    var n := |key| - 1;
    var p := key[..n];
    var end := PrefixEnd(key);
    var tail := end[n..];
    assert tail == RuneBytes(key[n] + 1);
    assert key == p + key[n..];
    assert end == p + tail;
    assert tail[0] < key[n..][0];
    BelowCommonPrefix(p, tail, key[n..]);
    EmptyWhenEndBelow(key, end, k);
  }

  /** When the last byte of `key` is 0xFF the computed end key wraps to 0x00 and falls below `key`. */
  lemma PrefixEndWraps(key: Bytes)
    requires |key| > 0 && key[|key| - 1] == 255
    ensures Below(PrefixEnd(key), key)
  {
    var n := |key| - 1;
    var p := key[..n];
    var end := PrefixEnd(key);
    assert key == p + key[n..];
    assert end == p + end[n..];
    assert end[n..][0] < key[n..][0];
    BelowCommonPrefix(p, end[n..], key[n..]);
  }

  /**
   * When a key of two or more bytes ends in 0xFF, the prefix range covers no
   * key at all.
   */
  lemma PrefixRangeWraps(key: Bytes, k: Bytes)
    requires |key| > 1 && key[|key| - 1] == 255
    ensures !InRange(k, key, PrefixEnd(key))
  {
    var p := key[..|key| - 1];
    assert key == p + [255];
    assert PrefixEnd(key) == p + [0];
    assert |PrefixEnd(key)| > 1;
    BetweenCommonPrefix(p, 255, 0, k);
  }

  /**
   * For the one-byte key 0xFF the end key is exactly "\x00", so the watch
   * covers every key from 0xFF on.
   */
  lemma PrefixRangeWrapsAll(k: Bytes)
    ensures PrefixEnd([0xFF]) == [0]
    ensures InRange(k, [0xFF], PrefixEnd([0xFF])) <==> !Below(k, [0xFF])
  {
    assert PrefixEnd([0xFF]) == [] + [0];
  }

  /** The range options: the prefix end key first, then the explicit range. */
  function RangeOptions(spec: WatchSpec): (opts: seq<OpOption>)
    requires PrefixRequested(spec) ==> |spec.key| > 0
    ensures |opts| <= 2
    ensures forall i :: 0 <= i < |opts| ==> opts[i].WithRange?
    ensures PrefixRequested(spec) ==> |opts| > 0 && opts[0] == WithRange(PrefixEnd(spec.key))
    ensures spec.range.Some? ==> |opts| > 0 && opts[|opts| - 1] == WithRange(spec.range.value)
    ensures forall i :: 0 <= i < |opts| ==>
              (i == 0 && PrefixRequested(spec) && opts[i].end == PrefixEnd(spec.key)) ||
              (spec.range.Some? && opts[i].end == spec.range.value)
  {
    (if PrefixRequested(spec) then [WithRange(PrefixEnd(spec.key))] else []) +
    (if spec.range.Some? then [WithRange(spec.range.value)] else [])
  }

  /** The other options: the start revision, then the previous-value flag. */
  function ExtraOptions(spec: WatchSpec): (opts: seq<OpOption>)
    ensures |opts| <= 2
    ensures forall i :: 0 <= i < |opts| ==> !opts[i].WithRange?
    ensures forall r :: WithRev(r) in opts <==> spec.rev == Some(r)
    ensures WithPrevKV in opts <==> spec.prev == Some(true)
  {
    (if spec.rev.Some? then [WithRev(spec.rev.value)] else []) +
    (if spec.prev == Some(true) then [WithPrevKV] else [])
  }

  /**
   * The options of a WATCH_CREATE, in the order the source appends them:
   * the prefix range, then the explicit range, then the revision, then the
   * previous-value flag.
   */
  function WatchOptions(spec: WatchSpec): (opts: seq<OpOption>)
    requires PrefixRequested(spec) ==> |spec.key| > 0
    ensures |opts| <= 4
    ensures PrefixRequested(spec) ==> |opts| > 0 && opts[0] == WithRange(PrefixEnd(spec.key))
    ensures spec.range.Some? ==> WithRange(spec.range.value) in opts
    ensures forall i :: 0 <= i < |opts| && opts[i].WithRange? ==>
              (i == 0 && PrefixRequested(spec) && opts[i].end == PrefixEnd(spec.key)) ||
              (spec.range.Some? && opts[i].end == spec.range.value)
    ensures forall r :: WithRev(r) in opts <==> spec.rev == Some(r)
    ensures WithPrevKV in opts <==> spec.prev == Some(true)
  {
    var ranges := RangeOptions(spec);
    var extras := ExtraOptions(spec);
    assert forall i :: 0 <= i < |ranges| ==> (ranges + extras)[i] == ranges[i];
    assert forall i :: |ranges| <= i < |ranges + extras| ==> (ranges + extras)[i] == extras[i - |ranges|];
    ranges + extras
  }

  /**
   * The end key a watch ends up with when its options are applied in order:
   * a later WithRange replaces an earlier one.
   */
  function EffectiveEnd(opts: seq<OpOption>): Option<Bytes> {
    if opts == [] then None
    else if opts[|opts| - 1].WithRange? then Some(opts[|opts| - 1].end)
    else EffectiveEnd(opts[..|opts| - 1])
  }

  lemma {:induction false} EffectiveEndAppend(opts: seq<OpOption>, more: seq<OpOption>)
    requires forall o :: o in more ==> !o.WithRange?
    ensures EffectiveEnd(opts + more) == EffectiveEnd(opts)
    decreases |more|
  {
    if more != [] {
      var m := more[..|more| - 1];
      assert (opts + more)[..|opts + more| - 1] == opts + m;
      assert more[|more| - 1] in more;
      EffectiveEndAppend(opts, m);
    } else {
      assert opts + more == opts;
    }
  }

  /**
   * The range a watch covers: an explicit `range` wins over the prefix end
   * key, the prefix end key applies otherwise, and with neither the watch is
   * on the single key.
   */
  lemma WatchRangeEnd(spec: WatchSpec)
    requires PrefixRequested(spec) ==> |spec.key| > 0
    ensures EffectiveEnd(WatchOptions(spec)) ==
              if spec.range.Some? then spec.range
              else if PrefixRequested(spec) then Some(PrefixEnd(spec.key))
              else None
  {
    var ranges := RangeOptions(spec);
    var rest := ExtraOptions(spec);
    assert forall o :: o in rest ==> !o.WithRange?;
    EffectiveEndAppend(ranges, rest);
    if spec.range.Some? && PrefixRequested(spec) {
      assert ranges[..1] == [WithRange(PrefixEnd(spec.key))];
    }
  }
}
