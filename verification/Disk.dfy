/** The disk: numbered blocks, each read or written in one piece (memide.c). */
module Disk {

  /** Words per block: BSIZE (512) bytes seen as 4-byte words. */
  const BLOCK_WORDS: nat := 128

  type Block = b: seq<int> | |b| == BLOCK_WORDS witness seq(BLOCK_WORDS, _ => 0)

  /** One synchronous block write. */
  datatype Write = Write(bno: nat, data: Block)

  predicate Fits(d: seq<Block>, ws: seq<Write>) {
    forall k :: 0 <= k < |ws| ==> ws[k].bno < |d|
  }

  /** The disk after the writes `ws`, first to last. */
  function Apply(d: seq<Block>, ws: seq<Write>): (r: seq<Block>)
    requires Fits(d, ws)
    ensures |r| == |d|
  {
    if ws == [] then d
    else
      var w := ws[|ws| - 1];
      Apply(d, ws[..|ws| - 1])[w.bno := w.data]
  }

  lemma ApplySnoc(d: seq<Block>, ws: seq<Write>, w: Write)
    requires Fits(d, ws) && w.bno < |d|
    ensures Fits(d, ws + [w])
    ensures Apply(d, ws + [w]) == Apply(d, ws)[w.bno := w.data]
  {
    assert (ws + [w])[..|ws + [w]| - 1] == ws;
  }
}
