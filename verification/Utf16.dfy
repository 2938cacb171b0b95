/** Text as UTF-16 units, and ASCII text as bytes. */
module Utf16 {
  import opened Base
  import opened Words

  type Units = seq<Word>

  predicate HighSurrogate(u: Word) {
    0xd800 <= u < 0xdc00
  }

  predicate LowSurrogate(u: Word) {
    0xdc00 <= u < 0xe000
  }

  /** Text from UTF-16, as its units: an unpaired surrogate becomes the replacement character. */
  function Lossy(u: Units): (r: Units)
    ensures |r| == |u|
  {
    if u == [] then []
    else if HighSurrogate(u[0]) && |u| > 1 && LowSurrogate(u[1]) then u[..2] + Lossy(u[2..])
    else (if HighSurrogate(u[0]) || LowSurrogate(u[0]) then [0xfffd] else [u[0]]) + Lossy(u[1..])
  }

  /** The units of some text: every surrogate is one of a pair. */
  predicate Paired(u: Units) {
    u == []
    || (HighSurrogate(u[0]) && |u| > 1 && LowSurrogate(u[1]) && Paired(u[2..]))
    || (!HighSurrogate(u[0]) && !LowSurrogate(u[0]) && Paired(u[1..]))
  }

  /** Units are kept as they are exactly when every surrogate is paired. */
  lemma {:induction false} LossyIff(u: Units)
    ensures Lossy(u) == u <==> Paired(u)
  {
    if u != [] {
      if HighSurrogate(u[0]) && |u| > 1 && LowSurrogate(u[1]) {
        LossyIff(u[2..]);
        assert Lossy(u)[2..] == Lossy(u[2..]) && u == u[..2] + u[2..];
      } else {
        LossyIff(u[1..]);
        assert Lossy(u)[1..] == Lossy(u[1..]) && u == [u[0]] + u[1..];
      }
    }
  }

  /** A high surrogate without a low one behind it, or a low one without a high one before it. */
  predicate Alone(u: Units, i: nat)
    requires i < |u|
  {
    || (HighSurrogate(u[i]) && !(i + 1 < |u| && LowSurrogate(u[i + 1])))
    || (LowSurrogate(u[i]) && !(i > 0 && HighSurrogate(u[i - 1])))
  }

  /** Exactly those become the replacement character. */
  lemma {:induction false} LossyAt(u: Units, i: nat)
    requires i < |u|
    ensures Lossy(u)[i] == if Alone(u, i) then 0xfffd else u[i]
  {
    if HighSurrogate(u[0]) && |u| > 1 && LowSurrogate(u[1]) {
      if i >= 2 {
        LossyAt(u[2..], i - 2);
      }
    } else if i >= 1 {
      LossyAt(u[1..], i - 1);
    }
  }

  /** The units of a string of the basic plane. */
  function UnitsOf(s: string): (u: Units)
    requires forall i :: 0 <= i < |s| ==> s[i] as int < 0xd800
    ensures |u| == |s| && forall i :: 0 <= i < |s| ==> u[i] == s[i] as int
  {
    seq(|s|, (i: nat) requires i < |s| => s[i] as int)
  }

  /** Such text has no surrogates. */
  lemma {:induction false} PlainText(u: Units)
    requires forall i :: 0 <= i < |u| ==> u[i] < 0xd800
    ensures Paired(u)
  {
    if u != [] {
      PlainText(u[1..]);
    }
  }

  /** Units as bytes, the low byte of each first. */
  function Encode(u: Units): Bytes {
    if u == [] then [] else LE(u[0], 2) + Encode(u[1..])
  }

  lemma {:induction false} EncodeLength(u: Units)
    ensures |Encode(u)| == 2 * |u|
  {
    if u != [] {
      EncodeLength(u[1..]);
    }
  }

  function Ascii(s: string): (b: Bytes)
    requires forall i :: 0 <= i < |s| ==> s[i] as int < 128
    ensures |b| == |s| && forall i :: 0 <= i < |s| ==> b[i] == s[i] as int
  {
    seq(|s|, (i: nat) requires i < |s| => s[i] as int)
  }
}
