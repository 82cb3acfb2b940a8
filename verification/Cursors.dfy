/** The adapter's compound resume cursor and its text form (adapters/bitcoin/src/map.rs). */
module Cursors {
  import opened Base
  import opened Digits

  predicate IsHex(c: char) { IsDigit(c) || 'a' <= c <= 'f' }

  predicate IsTxid(s: string) { |s| == 64 && forall i :: 0 <= i < |s| ==> IsHex(s[i]) }

  type Mark = (nat, string)

  datatype Cursor = Cursor(height: nat, txid: string, mempool: Option<string>)
  {
    function ConfirmedMark(): Mark { (height, txid) }

    /** A cursor whose fields the adapter could hold. */
    predicate WellFormed() {
      && height < U64
      && (txid == "" || IsTxid(txid))
      && (mempool.Some? ==> IsTxid(mempool.value))
    }
  }

  /** No confirmed transaction has been emitted yet. */
  const BOTTOM: Cursor := Cursor(0, "", None)

  predicate MarkLt(a: Mark, b: Mark) { a.0 < b.0 || (a.0 == b.0 && LexLt(a.1, b.1)) }

  predicate MarkLe(a: Mark, b: Mark) { a == b || MarkLt(a, b) }

  /** The derived order: the confirmed mark, then the mempool position, none before any. */
  predicate CursorLt(a: Cursor, b: Cursor) {
    || MarkLt(a.ConfirmedMark(), b.ConfirmedMark())
    || (&& a.ConfirmedMark() == b.ConfirmedMark()
        && match (a.mempool, b.mempool)
           case (_, None) => false
           case (None, Some(_)) => true
           case (Some(x), Some(y)) => LexLt(x, y))
  }

  // ----- text ----------------------------------------------------------------------------

  /** Where `sep` first occurs. */
  function Find(s: string, sep: string): (at: Option<nat>)
    ensures at.Some? ==> at.value + |sep| <= |s|
    decreases |s|
  {
    if sep <= s then Some(0)
    else if s == "" then None
    else
      var at := Find(s[1..], sep);
      if at.None? then None else Some(at.value + 1)
  }

  function SplitOnce(s: string, sep: string): Option<(string, string)> {
    var at := Find(s, sep);
    if at.None? then None else Some((s[..at.value], s[at.value + |sep|..]))
  }

  lemma {:induction false} FoundThere(s: string, sep: string)
    requires Find(s, sep).Some?
    ensures sep <= s[Find(s, sep).value..]
  {
    if !(sep <= s) {
      FoundThere(s[1..], sep);
      assert s[1..][Find(s[1..], sep).value..] == s[Find(s, sep).value..];
    }
  }

  lemma {:induction false} SplitRejoins(s: string, sep: string)
    requires SplitOnce(s, sep).Some?
    ensures s == SplitOnce(s, sep).value.0 + sep + SplitOnce(s, sep).value.1
  {
    FoundThere(s, sep);
    var at := Find(s, sep).value;
    assert s == s[..at] + s[at..] && s[at..] == sep + s[at..][|sep|..];
  }

  /** Rust's `u64::from_str`: an optional plus sign, then one or more digits, in range. */
  function ParseU64(s: string): (n: Option<nat>)
    ensures n.Some? ==> n.value < U64
  {
    var digits := if s != "" && s[0] == '+' then s[1..] else s;
    if digits == "" || !AllDigits(digits) || Value(digits) >= U64 then None else Some(Value(digits))
  }

  function Parse(s: string): Option<Cursor> {
    var top := SplitOnce(s, ":");
    if top.None? then None
    else
      var height := ParseU64(top.value.0);
      var tail := SplitOnce(top.value.1, ":m:");
      var txid := if tail.Some? then tail.value.0 else top.value.1;
      var mempool := if tail.Some? then Some(tail.value.1) else None;
      if height.None? || (txid != "" && !IsTxid(txid)) || (mempool.Some? && !IsTxid(mempool.value)) then None
      else Some(Cursor(height.value, txid, mempool))
  }

  function Encode(c: Cursor): string {
    if c.mempool.Some? then Decimal(c.height) + ":" + c.txid + ":m:" + c.mempool.value
    else Decimal(c.height) + ":" + c.txid
  }

  // ----- the two are inverse -------------------------------------------------------------

  predicate NoColon(s: string) { forall i :: 0 <= i < |s| ==> s[i] != ':' }

  lemma {:induction false} FindSkips(c: char, s: string, sep: string)
    requires sep != "" && c != sep[0]
    ensures Find([c] + s, sep) == var at := Find(s, sep); if at.None? then None else Some(at.value + 1)
  {
    assert ([c] + s)[1..] == s && ([c] + s)[0] == c;
  }

  lemma {:induction false} FindAfter(a: string, rest: string, sep: string)
    requires NoColon(a) && sep != "" && sep[0] == ':' && sep <= rest
    ensures Find(a + rest, sep) == Some(|a|)
  {
    if a == "" {
      assert a + rest == rest;
    } else {
      FindAfter(a[1..], rest, sep);
      FindSkips(a[0], a[1..] + rest, sep);
      assert a + rest == [a[0]] + (a[1..] + rest);
    }
  }

  lemma {:induction false} FindNothing(a: string, sep: string)
    requires NoColon(a) && sep != "" && sep[0] == ':'
    ensures Find(a, sep) == None
  {
    if a != "" {
      FindNothing(a[1..], sep);
    }
  }

  lemma {:induction false} Splits(a: string, sep: string, b: string)
    requires NoColon(a) && sep != "" && sep[0] == ':'
    ensures SplitOnce(a + sep + b, sep) == Some((a, b))
  {
    var s := a + (sep + b);
    assert a + sep + b == s;
    FindAfter(a, sep + b, sep);
    assert s[..|a|] == a && s[|a| + |sep|..] == b;
  }

  lemma {:induction false} FirstColon(s: string, at: nat)
    requires Find(s, ":") == Some(at)
    ensures NoColon(s[..at])
  {
    if !(":" <= s) {
      FirstColon(s[1..], at - 1);
      assert s[..at] == [s[0]] + s[1..][..at - 1];
    }
  }

  lemma {:induction false} ParseU64Decimal(n: nat)
    requires n < U64
    ensures ParseU64(Decimal(n)) == Some(n) && NoColon(Decimal(n))
  {
    DecimalValue(n);
    assert IsDigit(Decimal(n)[0]);
  }

  /** Every cursor the adapter issues parses back to itself. */
  lemma {:induction false} ParseEncode(c: Cursor)
    requires c.WellFormed()
    ensures Parse(Encode(c)) == Some(c)
  {
    ParseU64Decimal(c.height);
    EncodeIsSpelled(c);
    ParseSpelled(Decimal(c.height), c);
  }

  /** The text of a cursor with a given numeral for its height. */
  function Spelled(height: string, txid: string, mempool: Option<string>): string {
    height + ":" + (if mempool.Some? then txid + ":m:" + mempool.value else txid)
  }

  lemma {:induction false} ParseSpelled(h: string, c: Cursor)
    requires c.WellFormed() && NoColon(h) && ParseU64(h) == Some(c.height)
    ensures Parse(Spelled(h, c.txid, c.mempool)) == Some(c)
  {
    var rest := if c.mempool.Some? then c.txid + ":m:" + c.mempool.value else c.txid;
    Splits(h, ":", rest);
    if c.mempool.Some? {
      Splits(c.txid, ":m:", c.mempool.value);
    } else {
      FindNothing(c.txid, ":m:");
    }
  }

  lemma {:induction false} ParsedIsSpelled(s: string)
    requires Parse(s).Some?
    ensures SplitOnce(s, ":").Some? && Parse(s).value.WellFormed()
    ensures var h, c := SplitOnce(s, ":").value.0, Parse(s).value;
            NoColon(h) && ParseU64(h) == Some(c.height) && s == Spelled(h, c.txid, c.mempool)
  {
    FirstColon(s, Find(s, ":").value);
    SplitRejoins(s, ":");
    var rest := SplitOnce(s, ":").value.1;
    if SplitOnce(rest, ":m:").Some? { SplitRejoins(rest, ":m:"); }
  }

  /** Exactly which texts are accepted, and as what. */
  lemma {:induction false} ParseAccepts(s: string, c: Cursor)
    ensures Parse(s) == Some(c) <==>
      c.WellFormed() && exists h :: NoColon(h) && ParseU64(h) == Some(c.height) && s == Spelled(h, c.txid, c.mempool)
  {
    if Parse(s) == Some(c) {
      ParsedIsSpelled(s);
    }
    if c.WellFormed() && exists h :: NoColon(h) && ParseU64(h) == Some(c.height) && s == Spelled(h, c.txid, c.mempool) {
      var h :| NoColon(h) && ParseU64(h) == Some(c.height) && s == Spelled(h, c.txid, c.mempool);
      ParseSpelled(h, c);
    }
  }

  lemma {:induction false} SpelledHeight(h: string, h': string, txid: string, mempool: Option<string>)
    requires NoColon(h) && NoColon(h') && Spelled(h, txid, mempool) == Spelled(h', txid, mempool)
    ensures h == h'
  {
    var rest := if mempool.Some? then txid + ":m:" + mempool.value else txid;
    Splits(h, ":", rest);
    Splits(h', ":", rest);
  }

  lemma {:induction false} EncodeIsSpelled(c: Cursor)
    ensures Encode(c) == Spelled(Decimal(c.height), c.txid, c.mempool)
  {
  }

  /** A parsed text is printed back unchanged exactly when its height is written the canonical way:
      no plus sign and no redundant leading zero. */
  lemma {:induction false} EncodeParse(s: string)
    requires Parse(s).Some?
    ensures SplitOnce(s, ":").Some?
    ensures Encode(Parse(s).value) == s <==> Canonical(SplitOnce(s, ":").value.0)
  {
    ParsedIsSpelled(s);
    var c, h := Parse(s).value, SplitOnce(s, ":").value.0;
    ParseU64Decimal(c.height);
    EncodeIsSpelled(c);
    if Encode(c) == s {
      SpelledHeight(Decimal(c.height), h, c.txid, c.mempool);
      DecimalCanonical(c.height);
    }
    if Canonical(h) {
      assert IsDigit(h[0]);
      CanonicalPrints(h);
    }
  }
}
