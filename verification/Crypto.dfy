/**
 * Encryption with two keys (src/lib/crypto.ts). AES-256-GCM is an ideal authenticated cipher:
 * a table of everything sealed so far, where opening succeeds only with the sealing key.
 * The printed text `iv:tag:body` in hexadecimal is modelled character by character.
 */
module Crypto {
  import opened Sequences

  type Byte = x: int | 0 <= x < 256

  datatype Key = Key(bytes: seq<Byte>)

  const IV_LENGTH: nat := 16
  const TAG_LENGTH: nat := 16

  /** What a sealing puts into the text, and what the table remembers about it. */
  datatype Sealing = Sealing(iv: seq<Byte>, tag: seq<Byte>, body: seq<Byte>)

  datatype Opening = Opening(key: Key, plain: string)

  type Table = map<Sealing, Opening>

  datatype Error = BadFormat | NotAuthentic | NoInstallationKey | VaultLocked

  // ---------- hexadecimal text ----------

  function HexDigit(n: int): char
    requires 0 <= n < 16
  {
    if n < 10 then '0' + n as char else 'a' + (n - 10) as char
  }

  function HexValue(c: char): Option<int> {
    if '0' <= c <= '9' then Some(c as int - '0' as int)
    else if 'a' <= c <= 'f' then Some(c as int - 'a' as int + 10)
    else if 'A' <= c <= 'F' then Some(c as int - 'A' as int + 10)
    else None
  }

  function HexEncode(bytes: seq<Byte>): string {
    if bytes == [] then ""
    else [HexDigit(bytes[0] / 16), HexDigit(bytes[0] % 16)] + HexEncode(bytes[1..])
  }

  /** `Buffer.from(text, "hex")`: stops without an error at the first pair that is not hexadecimal. */
  function HexDecode(s: string): seq<Byte> {
    if |s| < 2 then []
    else
      match (HexValue(s[0]), HexValue(s[1]))
      case (Some(high), Some(low)) =>
        if 0 <= high < 16 && 0 <= low < 16 then [16 * high + low] + HexDecode(s[2..]) else []
      case _ => []
  }

  lemma {:induction false} HexRoundTrip(bytes: seq<Byte>)
    ensures HexDecode(HexEncode(bytes)) == bytes
    ensures ':' !in HexEncode(bytes)
    ensures |HexEncode(bytes)| == 2 * |bytes|
  {
    if bytes != [] {
      HexRoundTrip(bytes[1..]);
      var b := bytes[0];
      var s := HexEncode(bytes);
      assert 0 <= b / 16 < 16 && 0 <= b % 16 < 16 && 16 * (b / 16) + b % 16 == b;
      assert HexValue(HexDigit(b / 16)) == Some(b / 16) && HexValue(HexDigit(b % 16)) == Some(b % 16);
      assert s[2..] == HexEncode(bytes[1..]);
      assert bytes == [b] + bytes[1..];
    }
  }

  lemma HexNothing()
    ensures HexEncode([]) == ""
  {
  }

  lemma HexByte(b: Byte, rest: seq<Byte>)
    ensures HexEncode([b] + rest) == [HexDigit(b / 16), HexDigit(b % 16)] + HexEncode(rest)
  {
    assert ([b] + rest)[1..] == rest;
  }

  /** The printed bytes of two chunks are the printed bytes of the whole. */
  lemma {:induction false} HexAppend(a: seq<Byte>, b: seq<Byte>)
    ensures HexEncode(a + b) == HexEncode(a) + HexEncode(b)
  {
    hide HexEncode;
    if a == [] {
      assert a + b == b;
      HexNothing();
    } else {
      HexAppend(a[1..], b);
      HexByte(a[0], a[1..]);
      HexByte(a[0], a[1..] + b);
      assert a == [a[0]] + a[1..] && a + b == [a[0]] + (a[1..] + b);
    }
  }

  function UpperCased(s: string): string {
    seq(|s|, i requires 0 <= i < |s| => UpperHex(s[i]))
  }

  /** Decoding takes the digits in either case. */
  lemma {:induction false} HexCaseIgnored(s: string)
    ensures HexDecode(UpperCased(s)) == HexDecode(s)
  {
    if |s| >= 2 {
      HexCaseIgnored(s[2..]);
      assert UpperCased(s)[2..] == UpperCased(s[2..]);
    }
  }

  // ---------- the text ----------

  function Print(s: Sealing): string {
    Join([HexEncode(s.iv), HexEncode(s.tag), HexEncode(s.body)], ':')
  }

  function Parse(text: string): Option<Sealing> {
    var parts := Split(text, ':');
    if |parts| != 3 then None
    else Some(Sealing(HexDecode(parts[0]), HexDecode(parts[1]), HexDecode(parts[2])))
  }

  lemma PrintIs(s: Sealing)
    ensures Print(s) == HexEncode(s.iv) + ":" + HexEncode(s.tag) + ":" + HexEncode(s.body)
  {
    hide HexEncode;
    var iv, tag, body := HexEncode(s.iv), HexEncode(s.tag), HexEncode(s.body);
    assert Join([tag, body], ':') == tag + ":" + body;
    assert [iv, tag, body][1..] == [tag, body];
    assert iv + ":" + (tag + ":" + body) == iv + ":" + tag + ":" + body;
  }

  /** The hex fields hold no separator, so the three parts always come back. */
  lemma ParsePrint(s: Sealing)
    ensures Parse(Print(s)) == Some(s)
  {
    HexRoundTrip(s.iv);
    HexRoundTrip(s.tag);
    HexRoundTrip(s.body);
    SplitJoin([HexEncode(s.iv), HexEncode(s.tag), HexEncode(s.body)], ':');
  }

  function OpenSealing(table: Table, key: Key, s: Sealing): Result<string, Error> {
    if s in table && table[s].key == key then Ok(table[s].plain) else Err(NotAuthentic)
  }

  function Open(table: Table, key: Key, text: string): Result<string, Error> {
    match Parse(text)
    case None => Err(BadFormat)
    case Some(s) => OpenSealing(table, key, s)
  }

  /** A drawing the cipher may return: lengths as configured and, the IV being random, never used before. */
  predicate Usable(table: Table, s: Sealing) {
    |s.iv| == IV_LENGTH && |s.tag| == TAG_LENGTH && s !in table
  }

  /** Keys and switch as the process sees them. */
  datatype Config = Config(installation: Option<Key>, vaultOn: bool, dataKey: Option<Key>)

  function SealingKey(c: Config): Result<Key, Error> {
    if c.vaultOn then
      if c.dataKey.Some? then Ok(c.dataKey.value) else Err(VaultLocked)
    else if c.installation.Some? then Ok(c.installation.value) else Err(NoInstallationKey)
  }

  function OpenInstallation(table: Table, c: Config, text: string): Result<string, Error> {
    if c.installation.Some? then Open(table, c.installation.value, text) else Err(NoInstallationKey)
  }

  /** `decrypt`: with the switch on, first the data key and then the installation key. */
  function Decrypt(table: Table, c: Config, text: string): Result<string, Error> {
    if !c.vaultOn then OpenInstallation(table, c, text)
    else if c.dataKey.Some? && Open(table, c.dataKey.value, text).Ok? then Open(table, c.dataKey.value, text)
    else
      var second := OpenInstallation(table, c, text);
      if second.Err? && c.dataKey.None? then Err(VaultLocked) else second
  }

  /** The cipher and its users; `draw` stands for the random IV and what AES-GCM produces from it. */
  class Cipher {
    var table: Table

    constructor ()
      ensures table == map[]
    {
      table := map[];
    }

    /** The cipher output arrives in two chunks, `update` and `final`, and is printed as it comes. */
    method EncryptWithKey(key: Key, plain: string, draw: Sealing, chunk: nat) returns (text: string)
      requires Usable(table, draw) && chunk <= |draw.body|
      modifies this
      ensures table == old(table)[draw := Opening(key, plain)]
      ensures text == HexEncode(draw.iv) + ":" + HexEncode(draw.tag) + ":" + HexEncode(draw.body)
      ensures text == Print(draw)
      ensures Open(table, key, text) == Ok(plain)
    {
      hide HexEncode, HexDecode, Join, Split, Print, Parse;
      table := table[draw := Opening(key, plain)];
      var encrypted := HexEncode(draw.body[..chunk]);
      encrypted := encrypted + HexEncode(draw.body[chunk..]);
      HexAppend(draw.body[..chunk], draw.body[chunk..]);
      assert draw.body == draw.body[..chunk] + draw.body[chunk..];
      text := HexEncode(draw.iv) + ":" + HexEncode(draw.tag) + ":" + encrypted;
      PrintIs(draw);
      ParsePrint(draw);
    }

    method DecryptWithKey(key: Key, text: string) returns (r: Result<string, Error>)
      ensures r == Err(BadFormat) <==> |Split(text, ':')| != 3
      ensures r.Ok? <==> exists s :: Parse(text) == Some(s) && s in table && table[s].key == key
      ensures r.Ok? ==> r.value == table[Parse(text).value].plain
      ensures r == Open(table, key, text)
    {
      var parts := Split(text, ':');
      if |parts| != 3 {
        return Err(BadFormat);
      }
      var s := Sealing(HexDecode(parts[0]), HexDecode(parts[1]), HexDecode(parts[2]));
      if s in table && table[s].key == key {
        r := Ok(table[s].plain);
      } else {
        r := Err(NotAuthentic);
      }
    }

    method Encrypt(c: Config, plain: string, draw: Sealing) returns (r: Result<string, Error>)
      requires Usable(table, draw)
      modifies this
      ensures !c.vaultOn && c.installation.Some? ==> r.Ok? && Open(table, c.installation.value, r.value) == Ok(plain)
      ensures c.vaultOn && c.dataKey.Some? ==> r.Ok? && Open(table, c.dataKey.value, r.value) == Ok(plain)
      ensures r == Err(VaultLocked) <==> c.vaultOn && c.dataKey.None?
      ensures r == Err(NoInstallationKey) <==> !c.vaultOn && c.installation.None?
      ensures r.Ok? <==> table != old(table)
      ensures SealingKey(c).Err? ==> r == Err(SealingKey(c).error) && table == old(table)
      ensures SealingKey(c).Ok? ==>
                r == Ok(Print(draw)) && table == old(table)[draw := Opening(SealingKey(c).value, plain)]
    {
      if !c.vaultOn {
        if c.installation.None? {
          return Err(NoInstallationKey);
        }
        var text := EncryptWithKey(c.installation.value, plain, draw, |draw.body|);
        return Ok(text);
      }
      if c.dataKey.None? {
        return Err(VaultLocked);
      }
      var text := EncryptWithKey(c.dataKey.value, plain, draw, |draw.body|);
      r := Ok(text);
    }

    method DecryptText(c: Config, text: string) returns (r: Result<string, Error>)
      ensures !c.vaultOn && c.installation.Some? ==> r == Open(table, c.installation.value, text)
      ensures !c.vaultOn && c.installation.None? ==> r == Err(NoInstallationKey)
      ensures c.vaultOn && c.dataKey.Some? && Open(table, c.dataKey.value, text).Ok? ==>
                r == Open(table, c.dataKey.value, text)
      ensures c.vaultOn && c.dataKey.Some? && Open(table, c.dataKey.value, text).Err? ==>
                r == if c.installation.Some? then Open(table, c.installation.value, text) else Err(NoInstallationKey)
      ensures c.vaultOn && c.dataKey.None? ==>
                r == if c.installation.Some? && Open(table, c.installation.value, text).Ok?
                     then Open(table, c.installation.value, text) else Err(VaultLocked)
      ensures r == Decrypt(table, c, text)
    {
      if c.vaultOn && c.dataKey.Some? {
        r := DecryptWithKey(c.dataKey.value, text);
        if r.Ok? {
          return;
        }
      }
      if c.installation.None? {
        r := Err(NoInstallationKey);
      } else {
        r := DecryptWithKey(c.installation.value, text);
      }
      if r.Err? && c.vaultOn && c.dataKey.None? {
        r := Err(VaultLocked);
      }
    }

    /** `safeDecrypt`: nothing instead of an error. */
    method SafeDecrypt(c: Config, text: string) returns (r: Option<string>)
      ensures r == match Decrypt(table, c, text) case Ok(p) => Some(p) case Err(_) => None
    {
      var d := DecryptText(c, text);
      r := match d case Ok(p) => Some(p) case Err(_) => None;
    }
  }

  /** The table only grows: no sealing is ever replaced. */
  predicate Grows(before: Table, after: Table) {
    forall s :: s in before ==> s in after && after[s] == before[s]
  }

  /**
   * Through the printed text, and whatever is sealed later: the sealing key gives the plaintext
   * back, the empty one included, and every other key is refused.
   */
  lemma SealedTextOpensOnlyWithItsKey(table: Table, draw: Sealing, key: Key, plain: string, later: Table, other: Key)
    requires Usable(table, draw) && Grows(table[draw := Opening(key, plain)], later)
    ensures Open(later, key, Print(draw)) == Ok(plain)
    ensures other != key ==> Open(later, other, Print(draw)) == Err(NotAuthentic)
  {
    ParsePrint(draw);
    assert draw in table[draw := Opening(key, plain)];
  }
}
