/** The scanner that finds Jira-shaped ticket keys, against a declarative
    description of what a key in a text is. */
module TicketKeys {

  predicate IsUpper(c: char) { 'A' <= c <= 'Z' }
  predicate IsLower(c: char) { 'a' <= c <= 'z' }
  predicate IsDigit(c: char) { '0' <= c <= '9' }
  predicate IsAlnum(c: char) { IsUpper(c) || IsLower(c) || IsDigit(c) }

  /** `s[p..q]` is 2 to 10 capitals, the hyphen at `h` and one or more digits,
      with no letter or digit on either side. */
  ghost predicate KeySpan(s: string, p: nat, h: nat, q: nat) {
    && p + 2 <= h <= p + 10 && h + 1 < q <= |s|
    && (forall k :: p <= k < h ==> IsUpper(s[k]))
    && s[h] == '-'
    && (forall k :: h + 1 <= k < q ==> IsDigit(s[k]))
    && (p == 0 || !IsAlnum(s[p - 1]))
    && (q == |s| || !IsAlnum(s[q]))
  }

  ghost predicate KeyAt(s: string, p: nat, q: nat) {
    exists h: nat :: KeySpan(s, p, h, q)
  }

  ghost predicate StartsKey(s: string, p: nat) {
    exists q: nat :: KeyAt(s, p, q)
  }

  /** The keys of the text that start at `i` or later, in order. */
  ghost function KeysFrom(s: string, i: nat): seq<string>
    decreases |s| - i
  {
    if i >= |s| then []
    else if StartsKey(s, i) then
      var q: nat :| KeyAt(s, i, q);
      [s[i..q]] + KeysFrom(s, i + 1)
    else KeysFrom(s, i + 1)
  }

  ghost function Keys(s: string): seq<string> { KeysFrom(s, 0) }

  lemma KeySpanIsUnique(s: string, p: nat, h: nat, q: nat, h': nat, q': nat)
    requires KeySpan(s, p, h, q) && KeySpan(s, p, h', q')
    ensures h == h' && q == q'
  {
  }

  lemma KeyComesNext(s: string, p: nat, h: nat, q: nat)
    requires KeySpan(s, p, h, q)
    ensures p < |s| && KeysFrom(s, p) == [s[p..q]] + KeysFrom(s, p + 1)
  {
    assert KeyAt(s, p, q);
    forall q': nat | KeyAt(s, p, q') ensures q' == q {
      var h': nat :| KeySpan(s, p, h', q');
      KeySpanIsUnique(s, p, h, q, h', q');
    }
  }

  lemma {:induction false} NoKeysBetween(s: string, i: nat, j: nat)
    requires i <= j <= |s| && forall p :: i <= p < j ==> !StartsKey(s, p)
    ensures KeysFrom(s, i) == KeysFrom(s, j)
    decreases j - i
  {
    if i < j { NoKeysBetween(s, i + 1, j); }
  }

  /** A key starts with a capital that no letter or digit precedes. */
  lemma NoKeyAt(s: string, p: nat)
    requires p < |s| && (!IsUpper(s[p]) || (p > 0 && IsAlnum(s[p - 1])))
    ensures !StartsKey(s, p)
  {
  }

  lemma NoKeyWithin(s: string, i: nat, j: nat)
    requires 0 < i <= j <= |s|
    requires forall p :: i <= p < j ==> !IsUpper(s[p]) || IsAlnum(s[p - 1])
    ensures forall p :: i <= p < j ==> !StartsKey(s, p)
  {
    forall p | i <= p < j ensures !StartsKey(s, p) { NoKeyAt(s, p); }
  }

  /** The hyphen of a key ends the run of capitals it starts with. */
  lemma HyphenEndsCapitals(s: string, p: nat, e: nat)
    requires p < e <= |s| && (forall k :: p <= k < e ==> IsUpper(s[k])) && (e == |s| || !IsUpper(s[e]))
    ensures forall h: nat, q: nat :: KeySpan(s, p, h, q) ==> h == e
  {
    forall h: nat, q: nat | KeySpan(s, p, h, q) ensures h == e {
    }
  }

  method ScanTicketKeys(text: string, into: seq<string>) returns (out: seq<string>)
    ensures out == into + Keys(text)
  {
    out := into;
    var i := 0;
    while i < |text|
      invariant i <= |text|
      invariant out + KeysFrom(text, i) == into + Keys(text)
    {
      if !IsUpper(text[i]) || (i > 0 && IsAlnum(text[i - 1])) {
        NoKeyAt(text, i);
        NoKeysBetween(text, i, i + 1);
        i := i + 1;
        continue;
      }
      var start := i;
      while i < |text| && IsUpper(text[i])
        invariant start <= i <= |text| && forall k :: start <= k < i ==> IsUpper(text[k])
      {
        i := i + 1;
      }
      HyphenEndsCapitals(text, start, i);
      NoKeyWithin(text, start + 1, i);
      if !(2 <= i - start <= 10) || i >= |text| || text[i] != '-' {
        assert !StartsKey(text, start);
        NoKeysBetween(text, start, i);
        continue;
      }
      var hyphen := i;
      i := i + 1;
      while i < |text| && IsDigit(text[i])
        invariant hyphen < i <= |text| && forall k :: hyphen < k < i ==> IsDigit(text[k])
      {
        i := i + 1;
      }
      NoKeyWithin(text, start + 1, i);
      if i == hyphen + 1 {
        assert !StartsKey(text, start);
        NoKeysBetween(text, start, i);
        continue;
      }
      if i < |text| && IsAlnum(text[i]) {
        NoKeyEndsAtAlnum(text, start, hyphen, i);
        NoKeysBetween(text, start, i);
        continue;
      }
      assert KeySpan(text, start, hyphen, i);
      KeyComesNext(text, start, hyphen, i);
      NoKeysBetween(text, start + 1, i);
      assert out + [text[start..i]] + KeysFrom(text, i) == out + ([text[start..i]] + KeysFrom(text, i));
      out := out + [text[start..i]];
    }
  }

  lemma NoKeyEndsAtAlnum(s: string, p: nat, h: nat, e: nat)
    requires p < h < e < |s| && IsAlnum(s[e]) && !IsDigit(s[e])
    requires forall h': nat, q: nat :: KeySpan(s, p, h', q) ==> h' == h
    requires forall k :: h < k < e ==> IsDigit(s[k])
    ensures !StartsKey(s, p)
  {
    forall h': nat, q: nat | KeySpan(s, p, h', q) ensures q == e {
    }
  }

  /** Sound and complete: the scan yields exactly the texts of the keys. */
  lemma {:induction false} KeysAreExact(s: string, i: nat, key: string)
    requires i <= |s|
    ensures key in KeysFrom(s, i) <==> exists p: nat, q: nat :: i <= p && KeyAt(s, p, q) && key == s[p..q]
    decreases |s| - i
  {
    if i < |s| {
      KeysAreExact(s, i + 1, key);
      KeysHere(s, i, key);
    }
  }

  lemma KeysHere(s: string, i: nat, key: string)
    requires i < |s|
    ensures key in KeysFrom(s, i) <==> (exists q: nat :: KeyAt(s, i, q) && key == s[i..q]) || key in KeysFrom(s, i + 1)
  {
    if StartsKey(s, i) {
      var q: nat :| KeyAt(s, i, q);
      var h: nat :| KeySpan(s, i, h, q);
      KeyComesNext(s, i, h, q);
      forall q': nat | KeyAt(s, i, q') ensures q' == q {
        var h': nat :| KeySpan(s, i, h', q');
        KeySpanIsUnique(s, i, h, q, h', q');
      }
    }
  }

  /** Two to ten capitals, a hyphen, and digits. */
  ghost predicate LooksLikeKey(key: string, h: nat) {
    && 2 <= h <= 10 && h + 1 < |key| && key[h] == '-'
    && (forall k :: 0 <= k < h ==> 'A' <= key[k] <= 'Z')
    && (forall k :: h < k < |key| ==> '0' <= key[k] <= '9')
  }

  /** By itself, a text is a key exactly when it looks like one. */
  lemma KeyByItself(key: string)
    ensures key in Keys(key) <==> exists h: nat :: LooksLikeKey(key, h)
  {
    KeysAreExact(key, 0, key);
    if key in Keys(key) {
      var p: nat, q: nat :| KeyAt(key, p, q) && key == key[p..q];
      var h: nat :| KeySpan(key, p, h, q);
      assert p == 0 && q == |key| && LooksLikeKey(key, h);
    }
    if h: nat :| LooksLikeKey(key, h) {
      assert KeySpan(key, 0, h, |key|);
      assert KeyAt(key, 0, |key|) && key == key[0..|key|];
    }
  }

  /** And whatever stands around it, what is read is a key by itself. */
  lemma KeysLookLikeKeys(s: string, key: string)
    requires key in Keys(s)
    ensures exists h: nat :: LooksLikeKey(key, h)
  {
    KeysAreExact(s, 0, key);
    var p: nat, q: nat :| KeyAt(s, p, q) && key == s[p..q];
    var h: nat :| KeySpan(s, p, h, q);
    assert LooksLikeKey(key, h - p);
  }
}
