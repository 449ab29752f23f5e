/** Host bytes written, resolved from a SMART page (internal/topsrv/smart/writes.go). */
module HostWrites {
  const DEFAULT_SECTOR_SIZE: nat := 512
  const MAX_UINT64: nat := 0xffff_ffff_ffff_ffff

  datatype Attr = Attr(id: nat, name: string, valueRaw: nat)

  datatype Unit = Bytes(size: nat) | PerSector

  const UNITS: map<string, Unit> := map[
    "Total_LBAs_Written" := PerSector,
    "Sectors_Written_to_SSD" := PerSector,
    "Host_Writes_GiB" := Bytes(0x4000_0000),
    "Total_Writes_GiB" := Bytes(0x4000_0000),
    "Lifetime_Writes_GiB" := Bytes(0x4000_0000),
    "Host_Writes_32MiB" := Bytes(0x200_0000),
    "Host_Writes_MiB" := Bytes(0x10_0000)]

  predicate Known(a: Attr) {
    a.name in UNITS
  }

  function SectorSize(sectorSize: nat): (n: nat)
    ensures n > 0
  {
    if sectorSize == 0 then DEFAULT_SECTOR_SIZE else sectorSize
  }

  /** The size of one unit of this attribute. */
  function UnitSize(a: Attr, sectorSize: nat): (n: nat)
    requires Known(a)
    ensures n > 0
  {
    match UNITS[a.name]
    case Bytes(size) => assert size > 0 by { PositiveUnits(a.name); } size
    case PerSector => SectorSize(sectorSize)
  }

  lemma PositiveUnits(name: string)
    requires name in UNITS && UNITS[name].Bytes?
    ensures UNITS[name].size > 0
  {
  }

  /** What the attribute stands for, computed without a word size. */
  function Product(a: Attr, sectorSize: nat): nat
    requires Known(a)
  {
    a.valueRaw * UnitSize(a, sectorSize)
  }

  /** A documented unit, a value the drive fills in, and a product that fits 64 bits. */
  predicate Qualifies(a: Attr, sectorSize: nat) {
    Known(a) && a.valueRaw != 0 && Product(a, sectorSize) <= MAX_UINT64
  }

  /** The guard by division rejects exactly the products that would wrap. */
  lemma GuardIsExact(raw: nat, size: nat)
    requires size > 0
    ensures raw > MAX_UINT64 / size <==> raw * size > MAX_UINT64
  {
    var q, r := MAX_UINT64 / size, MAX_UINT64 % size;
    assert MAX_UINT64 == q * size + r;
    if raw > q {
      TimesMonotone(q + 1, raw, size);
    } else {
      TimesMonotone(raw, q, size);
    }
  }

  lemma TimesMonotone(a: nat, b: nat, c: nat)
    requires a <= b
    ensures a * c <= b * c
  {
  }

  // ----- the result -----

  datatype Answer = Answer(value: nat, ok: bool)

  ghost predicate IsLowest(a: Attr, attrs: seq<Attr>, sectorSize: nat) {
    a in attrs && Qualifies(a, sectorSize) && forall b :: b in attrs && Qualifies(b, sectorSize) ==> a.id <= b.id
  }

  /** The exact product of a qualifying attribute of lowest id, or nothing when none qualifies. */
  ghost predicate Resolves(attrs: seq<Attr>, sectorSize: nat, r: Answer) {
    if r.ok then exists a :: IsLowest(a, attrs, sectorSize) && r.value == Product(a, sectorSize)
    else r.value == 0 && forall a :: a in attrs ==> !Qualifies(a, sectorSize)
  }

  ghost predicate DistinctIds(attrs: seq<Attr>) {
    forall a, b :: a in attrs && b in attrs && a.id == b.id ==> a == b
  }

  /** With one attribute per id the page has one answer, whatever the order it is read in. */
  lemma OrderDoesNotMatter(a: seq<Attr>, b: seq<Attr>, sectorSize: nat, r: Answer, q: Answer)
    requires DistinctIds(a) && multiset(a) == multiset(b)
    requires Resolves(a, sectorSize, r) && Resolves(b, sectorSize, q)
    ensures r == q
  {
    SameMembers(a, b);
    if r.ok && q.ok {
      var x :| IsLowest(x, a, sectorSize) && r.value == Product(x, sectorSize);
      var y :| IsLowest(y, b, sectorSize) && q.value == Product(y, sectorSize);
      assert x.id == y.id;
    }
  }

  lemma SameMembers<T(!new)>(a: seq<T>, b: seq<T>)
    requires multiset(a) == multiset(b)
    ensures forall x :: x in a <==> x in b
  {
    forall x
      ensures x in a <==> x in b
    {
      assert x in a <==> x in multiset(a);
      assert x in b <==> x in multiset(b);
    }
  }

  /** Two attributes of one id may answer differently, so distinct ids are needed. */
  lemma SameIdTwoAnswers()
    ensures var a, b := Attr(241, "Host_Writes_MiB", 1), Attr(241, "Host_Writes_MiB", 2);
      Resolves([a, b], 0, Answer(0x10_0000, true)) && Resolves([a, b], 0, Answer(0x20_0000, true))
  {
    var a, b := Attr(241, "Host_Writes_MiB", 1), Attr(241, "Host_Writes_MiB", 2);
    assert UNITS["Host_Writes_MiB"] == Bytes(0x10_0000);
    assert Product(a, 0) == 0x10_0000 && Product(b, 0) == 0x20_0000;
    assert IsLowest(a, [a, b], 0) && IsLowest(b, [a, b], 0);
  }

  /** The lowest qualifying attributes stand for one number of bytes. */
  ghost predicate LowestAgree(attrs: seq<Attr>, sectorSize: nat) {
    forall a, b :: IsLowest(a, attrs, sectorSize) && IsLowest(b, attrs, sectorSize)
                   ==> Product(a, sectorSize) == Product(b, sectorSize)
  }

  /** Without distinct ids a page has one answer if and only if its lowest qualifying attributes agree. */
  lemma OneAnswerIff(attrs: seq<Attr>, sectorSize: nat)
    ensures (forall r, q :: Resolves(attrs, sectorSize, r) && Resolves(attrs, sectorSize, q) ==> r == q)
            <==> LowestAgree(attrs, sectorSize)
  {
    forall a, b | IsLowest(a, attrs, sectorSize) && IsLowest(b, attrs, sectorSize)
      ensures Resolves(attrs, sectorSize, Answer(Product(a, sectorSize), true))
      ensures Resolves(attrs, sectorSize, Answer(Product(b, sectorSize), true))
    {
    }
    if LowestAgree(attrs, sectorSize) {
      forall r, q | Resolves(attrs, sectorSize, r) && Resolves(attrs, sectorSize, q)
        ensures r == q
      {
        ResolvesAlike(attrs, sectorSize, r, q);
      }
    } else {
      var a, b :| IsLowest(a, attrs, sectorSize) && IsLowest(b, attrs, sectorSize)
                  && Product(a, sectorSize) != Product(b, sectorSize);
      assert Resolves(attrs, sectorSize, Answer(Product(a, sectorSize), true));
      assert Resolves(attrs, sectorSize, Answer(Product(b, sectorSize), true));
      assert Answer(Product(a, sectorSize), true) != Answer(Product(b, sectorSize), true);
    }
  }

  lemma ResolvesAlike(attrs: seq<Attr>, sectorSize: nat, r: Answer, q: Answer)
    requires LowestAgree(attrs, sectorSize)
    requires Resolves(attrs, sectorSize, r) && Resolves(attrs, sectorSize, q)
    ensures r == q
  {
    if r.ok && q.ok {
      var x :| IsLowest(x, attrs, sectorSize) && r.value == Product(x, sectorSize);
      var y :| IsLowest(y, attrs, sectorSize) && q.value == Product(y, sectorSize);
    }
  }

  // ----- by name -----

  /** Bytes per unit of the attributes with a documented one; 0 for all others. */
  function BytesPerUnit(name: string, sectorSize: nat): nat {
    match name
    case "Total_LBAs_Written" => if sectorSize == 0 then 512 else sectorSize
    case "Sectors_Written_to_SSD" => if sectorSize == 0 then 512 else sectorSize
    case "Host_Writes_GiB" => 1_073_741_824
    case "Total_Writes_GiB" => 1_073_741_824
    case "Lifetime_Writes_GiB" => 1_073_741_824
    case "Host_Writes_32MiB" => 33_554_432
    case "Host_Writes_MiB" => 1_048_576
    case _ => 0
  }

  /** What an attribute tells in bytes, or 0 when it tells nothing. */
  function Told(a: Attr, sectorSize: nat): nat {
    var bytes := a.valueRaw * BytesPerUnit(a.name, sectorSize);
    if bytes <= 18_446_744_073_709_551_615 then bytes else 0
  }

  lemma NamesHaveUnits(name: string, sectorSize: nat)
    ensures name in UNITS <==> BytesPerUnit(name, sectorSize) > 0
    ensures name in UNITS ==> UnitSize(Attr(0, name, 0), sectorSize) == BytesPerUnit(name, sectorSize)
  {
  }

  lemma ToldIfQualifies(a: Attr, sectorSize: nat)
    ensures Qualifies(a, sectorSize) <==> Told(a, sectorSize) > 0
    ensures Qualifies(a, sectorSize) ==> Product(a, sectorSize) == Told(a, sectorSize)
  {
    var size := BytesPerUnit(a.name, sectorSize);
    NamesHaveUnits(a.name, sectorSize);
    if a.name in UNITS {
      assert UnitSize(a, sectorSize) == size;
      if a.valueRaw > 0 {
        TimesMonotone(1, a.valueRaw, size);
      }
    } else {
      assert a.valueRaw * size == 0;
    }
  }

  /** The answer of a page is what the lowest id tells that tells anything. */
  lemma LowestTellingAnswers(attrs: seq<Attr>, sectorSize: nat, r: Answer)
    requires Resolves(attrs, sectorSize, r)
    ensures r.ok <==> exists a :: a in attrs && Told(a, sectorSize) > 0
    ensures !r.ok ==> r.value == 0
    ensures r.ok ==> exists a :: a in attrs && Told(a, sectorSize) == r.value > 0
                                 && forall b :: b in attrs && Told(b, sectorSize) > 0 ==> a.id <= b.id
  {
    forall a: Attr
      ensures Qualifies(a, sectorSize) <==> Told(a, sectorSize) > 0
      ensures Qualifies(a, sectorSize) ==> Product(a, sectorSize) == Told(a, sectorSize)
    {
      ToldIfQualifies(a, sectorSize);
    }
    if r.ok {
      var a :| IsLowest(a, attrs, sectorSize) && r.value == Product(a, sectorSize);
      assert Told(a, sectorSize) == r.value;
    }
  }

  /** A lone attribute answers with its value in bytes: sectors of the drive's size, 512 when unknown. */
  lemma SingleAttribute(a: Attr, sectorSize: nat, r: Answer)
    requires Resolves([a], sectorSize, r)
    ensures r == Answer(Told(a, sectorSize), Told(a, sectorSize) > 0)
    ensures a.name == "Total_LBAs_Written" && sectorSize > 0 ==>
      var bytes := a.valueRaw * sectorSize;
      r == if 0 < bytes < 0x1_0000_0000_0000_0000 then Answer(bytes, true) else Answer(0, false)
  {
    LowestTellingAnswers([a], sectorSize, r);
  }

  // ----- the method -----

  ghost predicate SortedUpTo(attrs: seq<Attr>, n: nat)
    requires n <= |attrs|
  {
    forall j, k :: 0 <= j < n && j <= k < |attrs| ==> attrs[j].id <= attrs[k].id
  }

  lemma SwapKeepsMultiset<T>(s: seq<T>, i: nat, m: nat)
    requires i < |s| && m < |s|
    ensures multiset(s[i := s[m]][m := s[i]]) == multiset(s)
  {
  }

  lemma SwapExtendsSorted(s: seq<Attr>, i: nat, m: nat)
    requires i <= m < |s| && SortedUpTo(s, i) && forall k :: i <= k < |s| ==> s[m].id <= s[k].id
    ensures SortedUpTo(s[i := s[m]][m := s[i]], i + 1)
  {
  }

  method IndexOfLeast(attrs: array<Attr>, i: nat) returns (m: nat)
    requires i < attrs.Length
    ensures i <= m < attrs.Length && forall k :: i <= k < attrs.Length ==> attrs[m].id <= attrs[k].id
  {
    m := i;
    var j := i + 1;
    while j < attrs.Length
      invariant i <= m < j <= attrs.Length
      invariant forall k :: i <= k < j ==> attrs[m].id <= attrs[k].id
    {
      if attrs[j].id < attrs[m].id {
        m := j;
      }
      j := j + 1;
    }
  }

  /** `slices.SortFunc` by id; it may order equal ids either way. */
  method SortById(attrs: array<Attr>)
    modifies attrs
    ensures multiset(attrs[..]) == multiset(old(attrs[..])) && SortedUpTo(attrs[..], attrs.Length)
  {
    var i := 0;
    while i < attrs.Length
      invariant 0 <= i <= attrs.Length
      invariant multiset(attrs[..]) == multiset(old(attrs[..])) && SortedUpTo(attrs[..], i)
    {
      var m := IndexOfLeast(attrs, i);
      ghost var before := attrs[..];
      SwapKeepsMultiset(before, i, m);
      SwapExtendsSorted(before, i, m);
      attrs[i], attrs[m] := attrs[m], attrs[i];
      assert attrs[..] == before[i := before[m]][m := before[i]];
      i := i + 1;
    }
  }

  /** Whether this attribute answers, and with what. */
  method Scale(a: Attr, sectorSize: nat) returns (value: nat, ok: bool)
    requires sectorSize > 0
    ensures ok <==> Qualifies(a, sectorSize)
    ensures ok ==> value == Product(a, sectorSize)
    ensures !ok ==> value == 0
  {
    value, ok := 0, false;
    if a.name !in UNITS || a.valueRaw == 0 {
      return;
    }
    var size := match UNITS[a.name] { case Bytes(n) => n case PerSector => sectorSize };
    assert size == UnitSize(a, sectorSize);
    GuardIsExact(a.valueRaw, size);
    if a.valueRaw > MAX_UINT64 / size {
      return;
    }
    value, ok := a.valueRaw * size, true;
  }

  method HostBytesWritten(attrs: array<Attr>, sectorSize: nat) returns (value: nat, ok: bool)
    modifies attrs
    ensures multiset(attrs[..]) == multiset(old(attrs[..])) && SortedUpTo(attrs[..], attrs.Length)
    ensures Resolves(old(attrs[..]), sectorSize, Answer(value, ok)) && value <= MAX_UINT64
  {
    var size := if sectorSize == 0 then DEFAULT_SECTOR_SIZE else sectorSize;
    SortById(attrs);
    ghost var sorted := attrs[..];
    SameMembers(sorted, old(attrs[..]));
    DefaultSize(sectorSize);
    var i := 0;
    while i < attrs.Length
      invariant 0 <= i <= attrs.Length && attrs[..] == sorted
      invariant forall k :: 0 <= k < i ==> !Qualifies(sorted[k], sectorSize)
    {
      value, ok := Scale(attrs[i], size);
      if ok {
        FirstIsLowest(sorted, sectorSize, i);
        return;
      }
      i := i + 1;
    }
    value, ok := 0, false;
  }

  /** A missing sector size is the default one. */
  lemma DefaultSize(sectorSize: nat)
    ensures forall a :: Qualifies(a, SectorSize(sectorSize)) <==> Qualifies(a, sectorSize)
    ensures forall a :: Known(a) ==> Product(a, SectorSize(sectorSize)) == Product(a, sectorSize)
  {
    assert SectorSize(SectorSize(sectorSize)) == SectorSize(sectorSize);
  }

  lemma FirstIsLowest(sorted: seq<Attr>, sectorSize: nat, i: nat)
    requires SortedUpTo(sorted, |sorted|) && i < |sorted| && Qualifies(sorted[i], sectorSize)
    requires forall k :: 0 <= k < i ==> !Qualifies(sorted[k], sectorSize)
    ensures IsLowest(sorted[i], sorted, sectorSize)
  {
  }
}
