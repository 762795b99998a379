/** Tic numbers on the wire (doom/d_net.c): a packet carries only the low byte of
    a tic number, and the receiver rebuilds the rest around its own maketic. */
module NetTics {

  const BACKUPTICS := 12

  /** The full tic number whose low byte is `low`, guessed around `maketic`. */
  function ExpandTics(maketic: int, low: int): int {
    var delta := low - maketic % 256;
    var page := maketic - maketic % 256;
    if -64 <= delta <= 64 then page + low
    else if delta > 64 then page - 256 + low
    else page + 256 + low
  }

  /** The pages (multiples of 256) in which ExpandTics looks for `tic`. */
  predicate Recoverable(maketic: int, tic: int) {
    || -64 <= tic - maketic <= 64
    || (tic / 256 == maketic / 256 + 1 && tic - maketic < 192)
    || (tic / 256 == maketic / 256 - 1 && maketic - tic < 192)
  }

  /** ExpandTics undoes the truncation to a byte exactly on the recoverable tics. */
  lemma ExpandTicsExact(maketic: int, tic: int)
    ensures ExpandTics(maketic, tic % 256) == tic <==> Recoverable(maketic, tic)
  {
    var q, m := tic / 256, maketic / 256;
    assert tic == 256 * q + tic % 256;
    assert maketic == 256 * m + maketic % 256;
    if q == m {
    } else if q == m + 1 {
    } else if q == m - 1 {
    } else {
      assert tic - tic % 256 != maketic - maketic % 256 + 256;
    }
  }

  /** The tic `k` away from maketic survives the truncation to a byte. */
  predicate Survives(maketic: int, k: int) {
    ExpandTics(maketic, (maketic + k) % 256) == maketic + k
  }

  /** 64 tics is the widest distance that survives whatever maketic is. */
  lemma ExpandTicsWindow(k: int)
    ensures (forall maketic: int :: Survives(maketic, k)) <==> -64 <= k <= 64
  {
    if -64 <= k <= 64 {
      forall maketic: int ensures Survives(maketic, k) {
        ExpandTicsExact(maketic, maketic + k);
      }
    } else {
      ExpandTicsExact(0, k);
      ExpandTicsExact(255, 255 + k);
      assert !Survives(0, k) || !Survives(255, k);
    }
  }
}
