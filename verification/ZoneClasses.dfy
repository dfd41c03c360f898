/** rtt/src/slab.c, zoneindex: the class of a small request, and the chunk size it is rounded up to. */
module ZoneClasses {
  const NZONES := 72

  /** What zoneindex returns and what it leaves in *bytes, for requests it expects; x & ~7 is x / 8 * 8. */
  function ZoneIndex(n: nat): (r: (nat, nat))
    requires 0 < n < 16384
  {
    if n < 128 then var b := (n + 7) / 8 * 8; (b / 8 - 1, b)
    else if n < 256 then var b := (n + 15) / 16 * 16; (b / 16 + 7, b)
    else if n < 512 then var b := (n + 31) / 32 * 32; (b / 32 + 15, b)
    else if n < 1024 then var b := (n + 63) / 64 * 64; (b / 64 + 23, b)
    else if n < 2048 then var b := (n + 127) / 128 * 128; (b / 128 + 31, b)
    else if n < 4096 then var b := (n + 255) / 256 * 256; (b / 256 + 39, b)
    else if n < 8192 then var b := (n + 511) / 512 * 512; (b / 512 + 47, b)
    else var b := (n + 1023) / 1024 * 1024; (b / 1024 + 55, b)
  }

  /** The chunk size of a class. */
  function ClassSize(i: nat): nat {
    if i < 16 then (i + 1) * 8
    else if i < 24 then (i - 7) * 16
    else if i < 32 then (i - 15) * 32
    else if i < 40 then (i - 23) * 64
    else if i < 48 then (i - 31) * 128
    else if i < 56 then (i - 39) * 256
    else if i < 64 then (i - 47) * 512
    else (i - 55) * 1024
  }

  /**
   * The class is one of the 72, its size is determined by the class, and the request is rounded up by less than
   * 8 bytes or an eighth of itself.
   */
  lemma ZoneIndexExact(n: nat)
    requires 0 < n < 16384
    ensures var (i, b) := ZoneIndex(n);
            i < NZONES && b == ClassSize(i) && n <= b <= 16384 && b % 8 == 0 && (b - n < 8 || 8 * (b - n) < n)
  {
    if n < 128 {
      Multiple8((n + 7) / 8);
    } else if n < 256 {
      Multiple16((n + 15) / 16);
    } else if n < 512 {
      Multiple32((n + 31) / 32);
    } else if n < 1024 {
      Multiple64((n + 63) / 64);
    } else if n < 2048 {
      Multiple128((n + 127) / 128);
    } else if n < 4096 {
      Multiple256((n + 255) / 256);
    } else if n < 8192 {
      Multiple512((n + 511) / 512);
    } else {
      Multiple1024((n + 1023) / 1024);
    }
  }

  lemma EightTimes(m: nat)
    ensures 8 * m % 8 == 0
  {}

  lemma Multiple8(k: nat)
    ensures k * 8 / 8 == k && k * 8 % 8 == 0
  {
    EightTimes(k * 1);
    assert k * 8 == 8 * (k * 1);
  }

  lemma Multiple16(k: nat)
    ensures k * 16 / 16 == k && k * 16 % 8 == 0
  {
    EightTimes(k * 2);
    assert k * 16 == 8 * (k * 2);
  }

  lemma Multiple32(k: nat)
    ensures k * 32 / 32 == k && k * 32 % 8 == 0
  {
    EightTimes(k * 4);
    assert k * 32 == 8 * (k * 4);
  }

  lemma Multiple64(k: nat)
    ensures k * 64 / 64 == k && k * 64 % 8 == 0
  {
    EightTimes(k * 8);
    assert k * 64 == 8 * (k * 8);
  }

  lemma Multiple128(k: nat)
    ensures k * 128 / 128 == k && k * 128 % 8 == 0
  {
    EightTimes(k * 16);
    assert k * 128 == 8 * (k * 16);
  }

  lemma Multiple256(k: nat)
    ensures k * 256 / 256 == k && k * 256 % 8 == 0
  {
    EightTimes(k * 32);
    assert k * 256 == 8 * (k * 32);
  }

  lemma Multiple512(k: nat)
    ensures k * 512 / 512 == k && k * 512 % 8 == 0
  {
    EightTimes(k * 64);
    assert k * 512 == 8 * (k * 64);
  }

  lemma Multiple1024(k: nat)
    ensures k * 1024 / 1024 == k && k * 1024 % 8 == 0
  {
    EightTimes(k * 128);
    assert k * 1024 == 8 * (k * 128);
  }

  /** Sizes grow with classes, so that the class is the least one with room for the request. */
  lemma LeastClass(n: nat, j: nat)
    requires 0 < n < 16384 && j < NZONES
    ensures n <= ClassSize(j) <==> ZoneIndex(n).0 <= j
  {
    ZoneIndexExact(n);
    Grows(ZoneIndex(n).0, j);
    Grows(j, ZoneIndex(n).0);
  }

  lemma Grows(i: nat, j: nat)
    requires i < NZONES && j < NZONES
    ensures i < j ==> ClassSize(i) < ClassSize(j)
  {}
}
