/**
 * SessionConfig: the immutable configuration a client sends to create a
 * session, and its Parcel encoding (four `Int`s: width, height, dpi and the
 * headless flag as 1 or 0).
 */
module SessionConfigs {
  import opened Jvm

  /** The data class with its default values. */
  datatype SessionConfig = SessionConfig(
    width: int32 := 1080,
    height: int32 := 1920,
    dpi: int32 := 420,
    headless: bool := true)

  /** A Parcel's data as the sequence of `Int`s written into it. */
  type Parcel = seq<int32>

  /** `writeToParcel`: appends width, height, dpi and the headless flag (1 or 0) to `parcel`. */
  function WriteToParcel(c: SessionConfig, parcel: Parcel): (p: Parcel)
    ensures |p| == |parcel| + 4 && p[..|parcel|] == parcel
  {
    parcel + [c.width, c.height, c.dpi, if c.headless then 1 else 0]
  }

  /**
   * `Parcel.readInt()` at data position `pos`: the `Int` there and the next
   * position; past the end of the data it yields 0 and does not advance.
   */
  function ReadInt(p: Parcel, pos: nat): (int32, nat) {
    if pos < |p| then (p[pos], pos + 1) else (0, pos)
  }

  /** The parcel constructor: reads four `Int`s in order; any nonzero fourth `Int` means headless. */
  function ReadFromParcel(p: Parcel, pos: nat): (SessionConfig, nat) {
    var (w, p1) := ReadInt(p, pos);
    var (h, p2) := ReadInt(p, p1);
    var (d, p3) := ReadInt(p, p2);
    var (flag, p4) := ReadInt(p, p3);
    (SessionConfig(w, h, d, flag != 0), p4)
  }

  /** The defaults are 1080 x 1920 at 420 dpi, headless. */
  lemma Defaults()
    ensures SessionConfig() == SessionConfig(1080, 1920, 420, true)
    ensures SessionConfig(headless := false) == SessionConfig(1080, 1920, 420, false)
  {
  }

  /**
   * Reading back what `writeToParcel` appended, from where it started,
   * yields the same configuration and consumes exactly four `Int`s.
   */
  lemma ReadAfterWrite(c: SessionConfig, parcel: Parcel)
    ensures ReadFromParcel(WriteToParcel(c, parcel), |parcel|) == (c, |parcel| + 4)
  {
  }

  /**
   * Writing back what was read reproduces the four `Int`s exactly when the
   * fourth is 0 or 1: every other nonzero flag is read as true and written as 1.
   */
  lemma WriteAfterRead(p: Parcel)
    requires |p| >= 4
    ensures WriteToParcel(ReadFromParcel(p, 0).0, []) == p[..4] <==> (p[3] == 0 || p[3] == 1)
  {
    var w := WriteToParcel(ReadFromParcel(p, 0).0, []);
    if p[3] != 0 && p[3] != 1 {
      assert w[3] != p[..4][3];
    } else {
      assert w == [p[0], p[1], p[2], p[3]];
    }
  }

  /**
   * A parcel that runs out reads missing `Int`s as 0: a parcel with only
   * three `Int`s yields a non-headless configuration.
   */
  lemma ShortParcel(p: Parcel)
    requires |p| == 3
    ensures ReadFromParcel(p, 0) == (SessionConfig(p[0], p[1], p[2], false), 3)
  {
  }
}
