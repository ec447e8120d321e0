/** From a format to a mounted volume. */
module Fresh {
  import opened Words
  import opened Blocks
  import opened Superblocks
  import opened CacheModel
  import opened PageCache
  import opened Journal
  import opened Recovery
  import opened Ledger
  import opened Volumes
  import opened Mounting
  import opened CrashSafety
  import opened Formatting

  /**
   A formatted device mounts unless it fails, showing itself, with nothing replayed
   and every header known; and while it refuses no write the volume on it is steady.
   */
  method MountFresh(d: Disk, ghost size: nat, ghost sb: Superblock, frames: nat)
    returns (r: Result<(Volume, nat), FsError>, device: Device)
    requires Carries(d, size, sb) && |d| < U32 && MIN_FRAMES <= frames <= MAX_FRAMES
    ensures fresh(device) && [d] <= device.history && (device.faults == 0 ==> r.Ok?) && (device.refused ==> 0 < device.faults)
    ensures r.Ok? ==> fresh(r.value.0) && fresh(r.value.0.cache) && Blank(r.value.0, sb, device, d) && r.value.1 == 0
                      && (!device.refused ==> r.value.0.Steady())
    ensures Sane(sb, |d|) && Recovered(sb, d) == Ok(d) && ReadHead(d[0], |d|) == Ok(sb)
    ensures AllStand(sb, device.history, 0, FirstStand(sb, d), true)
  {
    hide ReadHead, Coherent, Timed, Recovered, Contained, Committed, Announces, Mountable, Carries, Clean, Secure, Builds, Passed, Stands,
      Upright, Forged, AllStand;
    FormattedMounts(size, sb, d);
    FormattedIsQuiet(d, sb);
    device := new Device(d);
    var cache := new Cache(frames, device);
    r := Mount(cache, Stand(d, {}, Known(d[sb.journalStart], [])));
    RebootStands(sb, d, FirstStand(sb, d), device.history);
    if r.Ok? {
      NothingWaits(cache.Now(), [], []);
    }
  }

  /** A volume just opened on `device`, which holds `d`. */
  ghost predicate Blank(v: Volume, sb: Superblock, device: Device, d: Disk)
    reads v, v.cache, v.cache.store
  {
    && v.Valid() && v.sb == sb && v.cache.store == device && v.cache.View() == d && v.sequence == 0
    && v.book.known && v.book.base == |device.history| - 1 && Pristine(v)
    && Free(v.cache.slots)
  }

  lemma FormattedIsQuiet(d: Disk, sb: Superblock)
    requires Clean(d, sb)
    ensures d != [] && Sane(sb, |d|) && ReadHead(d[0], |d|) == Ok(sb) && Recovered(sb, d) == Ok(d)
    ensures Committed(sb, d).None? && !Announces(d[sb.journalStart], sb.journalBlocks)
    ensures Mountable(d, d, {}, Stand(d, {}, Known(d[sb.journalStart], []))) && FirstStand(sb, d) == Stand(d, {}, Known(d[sb.journalStart], []))
    ensures Stands(sb, d, FirstStand(sb, d)) && Upright(sb, d, FirstStand(sb, d).origin) && !Forged(sb, d, FirstStand(sb, d).origin)
  {
    hide ReadHead, At, Sum, Stands;
    ZeroAnnouncesNothing();
    assert InLog(sb, sb.journalStart);
    RestsStands(sb, d, FirstStand(sb, d));
  }
}
