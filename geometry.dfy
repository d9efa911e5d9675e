/** The two panel variants the driver supports and the constants each fixes (src/lib.rs). */
module Geometry {

  import opened Instructions

  datatype DisplaySize = Size128x64 | Size88x48
  {
    /** Visible width in pixels (one framebuffer byte per column and page). */
    function Width(): nat
    {
      match this
      case Size128x64 => 128
      case Size88x48 => 88
    }

    /** Visible height in pixels. */
    function Height(): nat
    {
      match this
      case Size128x64 => 64
      case Size88x48 => 48
    }

    /** Column at which the visible area starts in the controller's RAM. */
    function OffsetX(): (offset: byte)
      ensures offset as nat + Width() <= 128
    {
      match this
      case Size128x64 => 0
      case Size88x48 => 20
    }

    /** Number of 8-pixel pages. */
    function Pages(): (n: nat)
      ensures 1 <= n <= 8
      ensures n * 8 == Height()
    {
      Height() / 8
    }

    /** The fixed array length the variant's buffer type declares. */
    function BufferSize(): nat
    {
      match this
      case Size128x64 => 1024
      case Size88x48 => 528
    }
  }

  /** Each variant's buffer holds exactly one bit per pixel, as `Pages()` rows of `Width()` bytes. */
  lemma BufferSizeIsArea(size: DisplaySize)
    ensures size.Height() % 8 == 0
    ensures size.BufferSize() == size.Width() * size.Height() / 8
    ensures size.BufferSize() == size.Pages() * size.Width()
  {
  }

  /** An all-off framebuffer of n bytes. */
  function Zeros(n: nat): (z: seq<byte>)
    ensures |z| == n
    ensures forall i :: 0 <= i < n ==> z[i] == 0
  {
    seq(n, _ => 0)
  }

  /** The buffer the variant's factory creates: all zero, one bit per pixel. */
  function CreateBuffer(size: DisplaySize): (b: seq<byte>)
    ensures |b| == size.BufferSize()
    ensures |b| * 8 == size.Width() * size.Height()
    ensures forall i :: 0 <= i < |b| ==> b[i] == 0
  {
    BufferSizeIsArea(size);
    Zeros(size.BufferSize())
  }
}
