/** `getCurrentThreadId`: the thread identifier is read from the location
    hash with the regular expression `/\/([a-f0-9]+)$/`, i.e. a '/'
    followed by one or more lower-case hexadecimal digits that run to the
    end of the hash. The captured digits are the id; no match is `null`. */
module ThreadId {
  import opened Prelude

  /** The character class `[a-f0-9]` (no upper case: the pattern has no
      `i` flag). */
  predicate IsHexDigit(c: char) {
    '0' <= c <= '9' || 'a' <= c <= 'f'
  }

  /** The regular expression matches `hash` with its '/' at index `i`:
      at least one character follows, and every one of them is a hex digit
      (`$` without the `m` flag anchors at the end of the whole string). */
  ghost predicate MatchAt(hash: string, i: int) {
    && 0 <= i < |hash| - 1
    && hash[i] == '/'
    && forall k :: i < k < |hash| ==> IsHexDigit(hash[k])
  }

  /** Since '/' is not a hex digit, the pattern can match in one place at
      most, so "the" match and its capture group are well defined. */
  lemma MatchIsUnique(hash: string, i: int, j: int)
    requires MatchAt(hash, i) && MatchAt(hash, j)
    ensures i == j
  {
    assert !IsHexDigit(hash[i]) && !IsHexDigit(hash[j]);
  }

  /** Start of the longest run of hex digits that ends just before index
      `j`, found by walking back from `j`. */
  function HexRunStart(hash: string, j: nat): (k: nat)
    requires j <= |hash|
    ensures k <= j
    ensures forall m :: k <= m < j ==> IsHexDigit(hash[m])
    ensures k == 0 || !IsHexDigit(hash[k - 1])
    decreases j
  {
    if j == 0 || !IsHexDigit(hash[j - 1]) then j else HexRunStart(hash, j - 1)
  }

  /** A match pins down where the trailing hex run starts: right after
      the matched '/'. */
  lemma MatchPinsRun(hash: string, i: int)
    requires MatchAt(hash, i)
    ensures HexRunStart(hash, |hash|) == i + 1
  {
    var k := HexRunStart(hash, |hash|);
    assert !IsHexDigit(hash[i]);
  }

  /** `MatchPinsRun` for every candidate position at once. */
  lemma MatchesPinRun(hash: string)
    ensures forall i :: MatchAt(hash, i) ==> HexRunStart(hash, |hash|) == i + 1
  {
    forall i | MatchAt(hash, i)
      ensures HexRunStart(hash, |hash|) == i + 1
    {
      MatchPinsRun(hash, i);
    }
  }

  /** `getCurrentThreadId` as a function of `window.location.hash`: the
      hex run at the end of the hash, provided it is non-empty and a '/'
      stands right before it. */
  function CurrentThreadId(hash: string): (r: Option<string>)
    ensures r.Some? <==> exists i :: MatchAt(hash, i)
    ensures r.Some? ==> MatchAt(hash, |hash| - |r.value| - 1) && r.value == hash[|hash| - |r.value|..]
  {
    var k := HexRunStart(hash, |hash|);
    MatchesPinRun(hash);
    if 0 < k < |hash| && hash[k - 1] == '/' then
      assert MatchAt(hash, k - 1);
      Some(hash[k..])
    else
      None
  }

  /** What the caller relies on: an extracted id is a non-empty suffix of
      the hash, made of hex digits only, so in particular it holds no '/'
      and is never the empty (falsy) string. */
  lemma ThreadIdShape(hash: string)
    requires CurrentThreadId(hash).Some?
    ensures var t := CurrentThreadId(hash).value;
            && |t| > 0
            && t == hash[|hash| - |t|..]
            && hash[|hash| - |t| - 1] == '/'
            && (forall m :: 0 <= m < |t| ==> IsHexDigit(t[m]))
            && '/' !in t
  {
    var t := CurrentThreadId(hash).value;
    var i := |hash| - |t| - 1;
    assert MatchAt(hash, i);
    forall m | 0 <= m < |t|
      ensures IsHexDigit(t[m])
    {
      assert t[m] == hash[i + 1 + m];
    }
  }

  /** Any hash of the form `prefix + "/" + id` with a non-empty hex `id`
      yields exactly that id, whatever the prefix holds. */
  lemma ThreadIdOfPath(prefix: string, id: string)
    requires |id| > 0
    requires forall m :: 0 <= m < |id| ==> IsHexDigit(id[m])
    ensures CurrentThreadId(prefix + "/" + id) == Some(id)
  {
    var hash := prefix + "/" + id;
    var i := |prefix|;
    assert hash[i] == '/';
    forall k | i < k < |hash|
      ensures IsHexDigit(hash[k])
    {
      assert hash[k] == id[k - i - 1];
    }
    assert MatchAt(hash, i);
    var t := CurrentThreadId(hash).value;
    MatchIsUnique(hash, i, |hash| - |t| - 1);
    assert hash[i + 1..] == id;
  }
}
