/** Sizes asked for: what callers ask of the allocator, and what it asks of the system. */
module MallocRequest {
  import opened MallocSizes
  import opened MallocHeap

  const MIN_REQUEST := 11
  const MAX_SMALL_REQUEST := 244
  const MAX_REQUEST := 0xFFFF_FFC0

  // pad_request, on words
  function Padded(bytes: nat): nat {
    (bytes + 11) % WORD / 8 * 8
  }

  // request2size
  function RequestSize(bytes: nat): nat {
    if bytes < MIN_REQUEST then MIN_CHUNK else Padded(bytes)
  }

  /** A chunk for a request holds it behind the head, wastes less than a minimal chunk, and is small for small
      requests. */
  lemma RequestFits(bytes: nat)
    requires bytes < MAX_REQUEST
    ensures var nb := RequestSize(bytes);
      && nb % 8 == 0 && MIN_CHUNK <= nb < WORD - 48 && bytes + 4 <= nb < bytes + MIN_CHUNK + 4
      && (nb < MIN_LARGE <==> bytes <= MAX_SMALL_REQUEST)
      && (forall z: nat :: z % 8 == 0 && z >= MIN_CHUNK && z >= bytes + 4 ==> nb <= z)
  {
    forall z: nat | z % 8 == 0 && z >= MIN_CHUNK && z >= bytes + 4
      ensures RequestSize(bytes) <= z
    {
    }
  }

  // granularity_align, on words; a page is no larger
  function Granular(s: nat): nat {
    (s + 256) % WORD / 256 * 256
  }

  // What sys_alloc asks for when the top chunk has room for part of nb already.
  function Asked(nb: nat, topsize: nat): nat {
    Granular((nb - topsize + TOP_FOOT + 1) % WORD)
  }

  /** The memory asked for is enough for the request exactly when the sum does not wrap around. */
  lemma AskedEnough(nb: nat, topsize: nat)
    requires topsize <= nb < WORD
    ensures topsize + Asked(nb, topsize) > nb + TOP_FOOT <==> nb - topsize + TOP_FOOT + 1 + 256 < WORD
  {
    var d := nb - topsize + TOP_FOOT + 1;
    if d < WORD {
      assert d % WORD == d;
      if d + 256 < WORD {
        assert (d + 256) % WORD == d + 256;
      } else {
        assert (d + 256) % WORD == d + 256 - WORD;
      }
    } else {
      assert d % WORD == d - WORD;
    }
  }

  /** A request that is too big becomes the largest word; for it, a fresh allocator asks the system for 256 bytes. */
  lemma TooBigAsks()
    ensures Asked(WORD - 1, 0) == 256
  {
    assert (WORD - 1 + TOP_FOOT + 1) % WORD == 40;
  }
}
