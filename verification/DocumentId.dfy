/** Deriving a draft's document id: nineteen base-62 digits of the digest of its slug and epoch. */
module DocumentId {
  const BASE: nat := 62
  const ID_LENGTH: nat := 19

  // ----- the digest as a number -----

  /** Bytes with the highest first. */
  function BigEndian(bytes: seq<nat>): nat {
    if bytes == [] then 0 else BigEndian(bytes[..|bytes| - 1]) * 256 + bytes[|bytes| - 1]
  }

  function Power256(n: nat): nat {
    if n == 0 then 1 else 256 * Power256(n - 1)
  }

  /** The first byte weighs most. */
  lemma {:induction false} FirstWeighsMost(b: nat, bytes: seq<nat>)
    ensures BigEndian([b] + bytes) == b * Power256(|bytes|) + BigEndian(bytes)
  {
    var all := [b] + bytes;
    if bytes == [] {
      assert all[..0] == [];
    } else {
      var before, last := bytes[..|bytes| - 1], bytes[|bytes| - 1];
      assert all[..|bytes|] == [b] + before;
      FirstWeighsMost(b, before);
      Moves(b, Power256(|before|));
    }
  }

  lemma Moves(b: nat, p: nat)
    ensures (b * p) * 256 == b * (256 * p)
  {}

  method DigestValue(digest: seq<nat>) returns (value: nat)
    ensures value == BigEndian(digest)
  {
    value := 0;
    for i := 0 to |digest|
      invariant value == BigEndian(digest[..i])
    {
      assert digest[..i + 1][..i] == digest[..i];
      value := value * 256 + digest[i];
    }
    assert digest[..|digest|] == digest;
  }

  // ----- its lowest digits -----

  function Pow(n: nat): (p: nat)
    ensures p > 0
  {
    if n == 0 then 1 else BASE * Pow(n - 1)
  }

  predicate IsDigits(ds: seq<nat>) {
    forall d | d in ds :: d < BASE
  }

  /** The number that digits stand for, lowest first. */
  function ValueOf(ds: seq<nat>): nat {
    if ds == [] then 0 else ValueOf(ds[..|ds| - 1]) + ds[|ds| - 1] * Pow(|ds| - 1)
  }

  lemma Distributes(a: nat, b: nat, p: nat)
    ensures (a + b) * p == a * p + b * p
  {}

  lemma Scales(a: nat, b: nat, p: nat)
    requires a <= b
    ensures a * p <= b * p
  {}

  lemma {:induction false} DigitsAreSmall(ds: seq<nat>)
    requires IsDigits(ds)
    ensures ValueOf(ds) < Pow(|ds|)
  {
    if ds != [] {
      var last := |ds| - 1;
      assert ds[last] in ds;
      assert IsDigits(ds[..last]) by { assert forall d | d in ds[..last] :: d in ds; }
      DigitsAreSmall(ds[..last]);
      Scales(ds[last] + 1, BASE, Pow(last));
      Distributes(ds[last], 1, Pow(last));
    }
  }

  /** `ds` have been taken off `value` and `high` is left. */
  predicate Split(value: nat, ds: seq<nat>, high: nat) {
    value == ValueOf(ds) + high * Pow(|ds|)
  }

  lemma NextSplit(value: nat, ds: seq<nat>, high: nat)
    requires Split(value, ds, high)
    ensures Split(value, ds + [high % BASE], high / BASE)
  {}

  lemma SplitGivesRemainder(value: nat, ds: seq<nat>, high: nat)
    requires Split(value, ds, high) && IsDigits(ds)
    ensures ValueOf(ds) == value % Pow(|ds|)
  {
    hide Pow, ValueOf;
    DigitsAreSmall(ds);
    RemainderIs(value, Pow(|ds|), high, ValueOf(ds));
  }

  lemma NothingTaken(value: nat)
    ensures Split(value, [], value)
  {}

  method LowestDigits(value: nat, length: nat) returns (ds: seq<nat>)
    ensures |ds| == length && IsDigits(ds) && ValueOf(ds) == value % Pow(length)
  {
    hide Pow, ValueOf, Split;
    ds := [];
    var high: nat := value;
    NothingTaken(value);
    while |ds| < length
      invariant |ds| <= length && IsDigits(ds) && Split(value, ds, high)
      decreases length - |ds|
    {
      NextSplit(value, ds, high);
      ds := ds + [high % BASE];
      high := high / BASE;
    }
    SplitGivesRemainder(value, ds, high);
  }

  lemma Gap(q: nat, q': nat, m: nat)
    requires q < q'
    ensures q * m + m <= q' * m
  {
    Scales(q + 1, q', m);
    Distributes(q, 1, m);
  }

  lemma RemainderIs(value: nat, m: nat, q: nat, r: nat)
    requires m > 0 && value == r + q * m && r < m
    ensures value % m == r
  {
    var q', r' := value / m, value % m;
    assert value == q' * m + r';
    if q < q' {
      Gap(q, q', m);
    } else if q' < q {
      Gap(q', q, m);
    }
  }

  /** Digits are read back in only one way, so ids differ exactly when the remainders do. */
  lemma {:induction false} DigitsDecide(a: seq<nat>, b: seq<nat>)
    requires IsDigits(a) && IsDigits(b) && |a| == |b| && ValueOf(a) == ValueOf(b)
    ensures a == b
  {
    if a != [] {
      var last := |a| - 1;
      assert IsDigits(a[..last]) by { assert forall d | d in a[..last] :: d in a; }
      assert IsDigits(b[..last]) by { assert forall d | d in b[..last] :: d in b; }
      DigitsAreSmall(a[..last]);
      DigitsAreSmall(b[..last]);
      RemainderIs(ValueOf(a), Pow(last), a[last], ValueOf(a[..last]));
      RemainderIs(ValueOf(b), Pow(last), b[last], ValueOf(b[..last]));
      DigitsDecide(a[..last], b[..last]);
      SameFactor(a[last], b[last], Pow(last));
      assert a == a[..last] + [a[last]] && b == b[..last] + [b[last]];
    }
  }

  lemma SameFactor(x: nat, y: nat, p: nat)
    requires p > 0 && x * p == y * p
    ensures x == y
  {}

  // ----- the id -----

  /** The digit's place in `0-9a-zA-Z`. */
  function Letter(d: nat): (c: char)
    requires d < BASE
  {
    if d < 10 then ('0' as int + d) as char
    else if d < 36 then ('a' as int + (d - 10)) as char
    else ('A' as int + (d - 36)) as char
  }

  predicate IsIdLetter(c: char) {
    '0' <= c <= '9' || 'a' <= c <= 'z' || 'A' <= c <= 'Z'
  }

  /** Each of the sixty-two letters and digits stands for one digit of the id, and nothing else does. */
  lemma LettersAreDigits(c: char)
    ensures IsIdLetter(c) <==> exists d: nat | d < BASE :: Letter(d) == c
    ensures forall d: nat, e: nat | d < BASE && e < BASE && Letter(d) == Letter(e) :: d == e
    ensures BASE == 62
  {
    if '0' <= c <= '9' {
      assert Letter(c as int - '0' as int) == c;
    } else if 'a' <= c <= 'z' {
      assert Letter(c as int - 'a' as int + 10) == c;
    } else if 'A' <= c <= 'Z' {
      assert Letter(c as int - 'A' as int + 36) == c;
    }
  }

  /** The digits, then the small letters, then the capitals. */
  lemma LettersInOrder(d: nat)
    ensures d < 10 ==> Letter(d) == "0123456789"[d]
    ensures 10 <= d < 36 ==> Letter(d) == "abcdefghijklmnopqrstuvwxyz"[d - 10]
    ensures 36 <= d < 62 ==> Letter(d) == "ABCDEFGHIJKLMNOPQRSTUVWXYZ"[d - 36]
  {}

  predicate Spells(id: string, ds: seq<nat>) {
    |id| == |ds| && IsDigits(ds) && forall i | 0 <= i < |id| :: ds[i] in ds && id[i] == Letter(ds[i])
  }

  method DeriveFrom(digest: seq<nat>, length: nat) returns (id: string, ghost ds: seq<nat>)
    ensures |id| == length && Spells(id, ds) && ValueOf(ds) == BigEndian(digest) % Pow(length)
  {
    var value := DigestValue(digest);
    var digits := LowestDigits(value, length);
    ds := digits;
    forall i | 0 <= i < |digits| ensures digits[i] in digits {}
    id := seq(|digits|, i requires 0 <= i < |digits| && digits[i] in digits => Letter(digits[i]));
  }

  /** The digest, taken as given, to the id. */
  method DeriveDocumentId(digest: seq<nat>) returns (id: string, ghost ds: seq<nat>)
    ensures |id| == ID_LENGTH && Spells(id, ds) && ValueOf(ds) == BigEndian(digest) % Pow(ID_LENGTH)
  {
    hide *;
    id, ds := DeriveFrom(digest, ID_LENGTH);
  }

  lemma SameLetters(id: string, ds: seq<nat>, ds': seq<nat>)
    requires Spells(id, ds) && Spells(id, ds')
    ensures ds == ds'
  {}

  /** Two ids are the same exactly when the digests agree modulo the number of ids there are. */
  lemma SameIdExactlyWhen(id: string, ds: seq<nat>, value: nat, id': string, ds': seq<nat>, value': nat)
    requires Spells(id, ds) && Spells(id', ds') && |id| == |id'|
    requires ValueOf(ds) == value % Pow(|id|) && ValueOf(ds') == value' % Pow(|id'|)
    ensures id == id' <==> value % Pow(|id|) == value' % Pow(|id|)
  {
    if id == id' {
      SameLetters(id, ds, ds');
    }
    hide Pow, ValueOf, Letter;
    if ValueOf(ds) == ValueOf(ds') {
      DigitsDecide(ds, ds');
    }
  }

  // ----- what is hashed -----

  predicate IsDecimal(s: string) {
    forall c | c in s :: '0' <= c <= '9'
  }

  /** A natural number as `${n}` writes it. */
  function Decimal(n: nat): (s: string)
    ensures s != "" && IsDecimal(s) && (n < 10 <==> |s| == 1)
  {
    if n < 10 then [DigitChar(n)] else Decimal(n / 10) + [DigitChar(n % 10)]
  }

  function DigitChar(d: nat): (c: char)
    requires d < 10
    ensures '0' <= c <= '9' && c as int == '0' as int + d
  {
    ('0' as int + d) as char
  }

  lemma {:induction false} DecimalDecides(a: nat, b: nat)
    requires Decimal(a) == Decimal(b)
    ensures a == b
    decreases a
  {
    var da, db := Decimal(a), Decimal(b);
    assert da[|da| - 1] == db[|db| - 1];
    if a >= 10 && b >= 10 {
      assert da[..|da| - 1] == Decimal(a / 10) && db[..|db| - 1] == Decimal(b / 10);
      DecimalDecides(a / 10, b / 10);
    }
  }

  function HashInput(slug: string, epoch: nat): string {
    slug + ("#" + Decimal(epoch))
  }

  lemma LastMark(a: string, b: string, a': string, b': string)
    requires a + ("#" + b) == a' + ("#" + b') && |a| < |a'|
    ensures '#' in b
  {
    var s := a + ("#" + b);
    assert s[|a'|] == '#' by { assert s == a' + ("#" + b'); }
    assert s[|a'|] == b[|a'| - |a| - 1];
  }

  /** Two slugs and epochs hash the same text only if they are the same, whatever the slugs contain. */
  lemma HashInputsDiffer(slug: string, epoch: nat, slug': string, epoch': nat)
    requires HashInput(slug, epoch) == HashInput(slug', epoch')
    ensures slug == slug' && epoch == epoch'
  {
    var b, b' := Decimal(epoch), Decimal(epoch');
    if |slug| < |slug'| {
      LastMark(slug, b, slug', b');
    } else if |slug'| < |slug| {
      LastMark(slug', b', slug, b);
    }
    var s := HashInput(slug, epoch);
    assert s[..|slug|] == slug && s[..|slug'|] == slug';
    assert s[|slug| + 1..] == b && s[|slug'| + 1..] == b';
    DecimalDecides(epoch, epoch');
  }
}
