/** File metadata, its timestamps, and the precision HTTP dates keep of them. */
module FileMetadata {
  const NANOS: int := 1_000_000_000

  datatype FileMeta = FileMeta(len: nat, ino: nat, mtime: int, mtimeNsec: int) {
    /** What `fstat(2)` can report. */
    predicate Normal() {
      0 <= mtimeNsec < NANOS
    }

    /** The modification time, in nanoseconds from the epoch. */
    function Modified(): (t: int)
      requires Normal()
    {
      if mtime >= 0 then mtime * NANOS + mtimeNsec
      else -((-mtime - 1) * NANOS + (NANOS - mtimeNsec))
    }
  }

  /** The conversion used where only a system time is available. */
  function FromModified(len: nat, ino: nat, time: int): (m: FileMeta)
  {
    FileMeta(len, ino, time / NANOS, time % NANOS)
  }

  /** Whole seconds, as HTTP dates carry them; `duration_since` works on magnitudes. */
  function HttpDatePrecision(time: int): int {
    if time >= 0 then (time / NANOS) * NANOS
    else
      var magnitude := -time;
      -(magnitude / NANOS + (if magnitude % NANOS > 0 then 1 else 0)) * NANOS
  }

  /** One formula on both sides of the epoch. */
  lemma ModifiedIsNanoseconds(m: FileMeta)
    requires m.Normal()
    ensures m.Modified() == m.mtime * NANOS + m.mtimeNsec
  {
  }

  /** The conversion undoes `Modified`, and `Modified` undoes the conversion. */
  lemma ModifiedInverse(m: FileMeta, time: int)
    requires m.Normal()
    ensures FromModified(m.len, m.ino, m.Modified()) == m
    ensures FromModified(m.len, m.ino, time).Normal()
    ensures FromModified(m.len, m.ino, time).Modified() == time
  {
    ModifiedIsNanoseconds(m);
    ModifiedIsNanoseconds(FromModified(m.len, m.ino, time));
  }

  /** An HTTP date keeps exactly the seconds of the modification time, before the epoch too. */
  lemma HttpDateIsMtime(m: FileMeta)
    requires m.Normal()
    ensures HttpDatePrecision(m.Modified()) == m.mtime * NANOS
  {
    ModifiedIsNanoseconds(m);
    var t := m.Modified();
    if m.mtime < 0 {
      assert -t == -m.mtime * NANOS - m.mtimeNsec;
      if m.mtimeNsec == 0 {
        assert -t == -m.mtime * NANOS + 0;
      } else {
        assert -t == (-m.mtime - 1) * NANOS + (NANOS - m.mtimeNsec);
        assert (-t) / NANOS == -m.mtime - 1;
      }
    }
  }
}
