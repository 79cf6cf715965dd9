// Constants of the page format (liblmdb/src/mdb.c), for 64-bit page numbers.

module PageFormat {

  const PAGEHDRSZ: nat := 16
  const NODESIZE: nat := 8
  const PGNO_SIZE: nat := 8
  const MAX_PAGESIZE: nat := 0x8000

  // Node sizes are rounded up to a multiple of two.
  function Even(n: nat): (e: nat)
    ensures e % 2 == 0 && n <= e <= n + 1
  {
    (n + 1) / 2 * 2
  }
}
