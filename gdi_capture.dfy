/** The GDI (raster copy) frame processor: set-up of a monitor or window
    capture, and one frame of it. Every GDI call is an outcome given as a
    parameter; the calls a frame makes are returned as a trace, so that their
    order, their arguments and the device context's selected bitmap can be
    stated. Pixel contents are not modelled. */
module GdiCapture {
  import opened ScreenCapture

  // ---------------------------------------------------------------------
  // Device-independent bitmap header

  /** sizeof(ImageBGRA): one pixel, blue-green-red-alpha. */
  const BytesPerPixel := 4
  const BitsPerPixel := 8 * BytesPerPixel
  /** sizeof(BITMAPINFOHEADER) */
  const HeaderSize := 40
  /** BI_RGB: uncompressed. */
  const BiRgb := 0

  const Two31 := 0x8000_0000
  const Two32 := 0x1_0000_0000
  const Two64 := 0x1_0000_0000_0000_0000

  /** A signed value converted to the 64-bit size_t (two's complement). */
  function AsSizeT(x: int): (r: nat) { x % Two64 }

  /** biSizeImage with the source's conversions: the signed product of the
      width and the bit count plus 31 is divided by an unsigned 32, scaled by
      the pixel size and the height in unsigned 64-bit arithmetic, and stored
      in a 32-bit DWORD. The signed product itself is taken without overflow
      (the C++ int overflows, with undefined behaviour, from a width of 2^26
      on). With that, for widths and heights below 2^31 it is the number of
      bytes of a tightly packed 32-bit image, modulo 2^32. */
  function SizeImage(w: int, h: int): (s: nat)
    ensures s < Two32
    ensures 0 <= w < Two31 && 0 <= h < Two31 ==> s == (w * BytesPerPixel * h) % Two32
    ensures 0 <= w && 0 <= h && w * BytesPerPixel * h < Two32 ==> s == w * BytesPerPixel * h
  {
    SizeImageInRange(w, h);
    AsSizeT(AsSizeT(AsSizeT(w * BitsPerPixel + 31) / BitsPerPixel * BytesPerPixel) * AsSizeT(h)) % Two32
  }

  lemma SizeImageInRange(w: int, h: int)
    ensures 0 <= w < Two31 && 0 <= h < Two31 ==>
      AsSizeT(AsSizeT(AsSizeT(w * BitsPerPixel + 31) / BitsPerPixel * BytesPerPixel) * AsSizeT(h)) % Two32
        == (w * BytesPerPixel * h) % Two32
    ensures 0 <= w && 0 <= h && w * BytesPerPixel * h < Two32 ==>
      AsSizeT(AsSizeT(AsSizeT(w * BitsPerPixel + 31) / BitsPerPixel * BytesPerPixel) * AsSizeT(h)) % Two32
        == w * BytesPerPixel * h
  {
    if 0 <= w && 0 <= h {
      if h == 0 {
        assert AsSizeT(h) == 0;
      } else if w == 0 {
        RoundUpToPixels(w);
      } else if w * BytesPerPixel * h < Two32 || (w < Two31 && h < Two31) {
        SmallFactors(w, h);
        RoundUpToPixels(w);
        var p := w * BytesPerPixel * h;
        assert AsSizeT(w * BytesPerPixel) == w * BytesPerPixel;
        assert AsSizeT(h) == h;
        assert AsSizeT(p) == p;
      }
    }
  }

  /** Rounding a row of 32-bit pixels up to whole 32-bit units changes
      nothing: the division gives back the width. */
  lemma RoundUpToPixels(w: int)
    requires 0 <= w < Two31
    ensures AsSizeT(AsSizeT(w * BitsPerPixel + 31) / BitsPerPixel * BytesPerPixel) == w * BytesPerPixel
  {
    var n := w * BitsPerPixel + 31;
    assert AsSizeT(n) == n;
    assert n / BitsPerPixel == w;
  }

  lemma SmallFactors(w: int, h: int)
    requires 1 <= w && 1 <= h
    requires w * BytesPerPixel * h < Two32 || (w < Two31 && h < Two31)
    ensures w < Two31 && h < Two32 && 0 < w * BytesPerPixel * h < Two64
  {
    var p := w * BytesPerPixel * h;
    assert p >= w * BytesPerPixel && p >= BytesPerPixel * h by {
      assert p == (w * BytesPerPixel) * h;
      assert p == (BytesPerPixel * h) * w;
    }
    if w < Two31 && h < Two31 {
      assert w * BytesPerPixel < Two31 * BytesPerPixel;
      assert p <= (Two31 * BytesPerPixel) * h;
    }
  }

  /** Bytes per row of a packed 32-bit image. */
  function Stride(w: int): (stride: int) { w * BytesPerPixel }

  datatype BitmapInfoHeader = BitmapInfoHeader(
    size: int, width: int, height: int, planes: int, bitCount: int, compression: int, sizeImage: int)

  /** The header a frame asks GetDIBits to fill a `w` by `h` image with:
      32 bits per pixel, uncompressed, a negative height so that rows come
      top-down, and, for sizes that fit, an image of `h` rows of Stride(w)
      bytes with no padding. */
  function DibHeader(w: int, h: int): (bi: BitmapInfoHeader)
    ensures bi.size == HeaderSize && bi.planes == 1 && bi.compression == BiRgb
    ensures bi.bitCount == BitsPerPixel && bi.width == w
    ensures bi.height == -h && (h > 0 ==> bi.height < 0)
    ensures 0 <= w && 0 <= h && Stride(w) * h < Two32 ==> bi.sizeImage == Stride(w) * h
  {
    BitmapInfoHeader(HeaderSize, w, -h, 1, BitsPerPixel, BiRgb, SizeImage(w, h))
  }

  // ---------------------------------------------------------------------
  // Frame traces

  /** The observable calls a frame makes: GDI calls, log entries (operation
      name only) and the final hand-over of the image to ProcessCapture,
      with the target's width and height and the row stride. */
  datatype GdiCall =
    | SelectObject(dc: Handle, obj: Handle)
    | BitBlt(dest: Handle, x: int, y: int, cx: int, cy: int, src: Handle)
    | PrintWindow(window: Handle, target: Handle)
    | GetDIBits(source: Handle, bitmap: Handle, lines: int, header: BitmapInfoHeader)
    | Log(operation: string)
    | ProcessCapture(width: int, height: int, stride: int)

  /** The return code of one frame and the calls it made. */
  datatype Frame = Frame(ret: DuplReturn, calls: seq<GdiCall>)

  /** The object selected into device context `dc` after `calls`, when `sel`
      was selected before them. */
  function SelectedAfter(dc: Handle, sel: Handle, calls: seq<GdiCall>): (h: Handle)
    decreases |calls|
  {
    if calls == [] then sel
    else SelectedAfter(dc, if calls[0].SelectObject? && calls[0].dc == dc then calls[0].obj else sel, calls[1..])
  }

  lemma {:induction false} SelectedAfterConcat(dc: Handle, sel: Handle, a: seq<GdiCall>, b: seq<GdiCall>)
    decreases |a|
    ensures SelectedAfter(dc, sel, a + b) == SelectedAfter(dc, SelectedAfter(dc, sel, a), b)
  {
    if a == [] {
      assert a + b == b;
    } else {
      assert (a + b)[0] == a[0];
      assert (a + b)[1..] == a[1..] + b;
      SelectedAfterConcat(dc, if a[0].SelectObject? && a[0].dc == dc then a[0].obj else sel, a[1..], b);
    }
  }

  /** Selecting `obj` last leaves `obj` selected, whatever came before. */
  lemma RestoredBySelect(dc: Handle, sel: Handle, body: seq<GdiCall>, obj: Handle, tail: seq<GdiCall>)
    requires forall c :: c in tail ==> !c.SelectObject?
    ensures SelectedAfter(dc, sel, body + [SelectObject(dc, obj)] + tail) == obj
  {
    SelectedAfterConcat(dc, sel, body + [SelectObject(dc, obj)], tail);
    SelectedAfterConcat(dc, sel, body, [SelectObject(dc, obj)]);
    NoSelectKeeps(dc, obj, tail);
  }

  lemma {:induction false} NoSelectKeeps(dc: Handle, sel: Handle, calls: seq<GdiCall>)
    decreases |calls|
    requires forall c :: c in calls ==> !c.SelectObject?
    ensures SelectedAfter(dc, sel, calls) == sel
  {
    if calls != [] {
      assert calls[0] in calls;
      NoSelectKeeps(dc, sel, calls[1..]);
    }
  }

  /** The calls other than log entries. */
  function Effects(calls: seq<GdiCall>): (r: seq<GdiCall>)
    decreases |calls|
    ensures forall c :: c in r ==> c in calls && !c.Log?
  {
    if calls == [] then []
    else (if calls[0].Log? then [] else [calls[0]]) + Effects(calls[1..])
  }

  lemma {:induction false} EffectsConcat(a: seq<GdiCall>, b: seq<GdiCall>)
    decreases |a|
    ensures Effects(a + b) == Effects(a) + Effects(b)
  {
    if a == [] {
      assert a + b == b;
    } else {
      assert (a + b)[0] == a[0];
      assert (a + b)[1..] == a[1..] + b;
      EffectsConcat(a[1..], b);
    }
  }

  predicate Delivers(calls: seq<GdiCall>) { exists c :: c in calls && c.ProcessCapture? }
  predicate Blits(calls: seq<GdiCall>) { exists c :: c in calls && c.BitBlt? }
  predicate Prints(calls: seq<GdiCall>) { exists c :: c in calls && c.PrintWindow? }
  predicate ReadsBack(calls: seq<GdiCall>) { exists c :: c in calls && c.GetDIBits? }

  // ---------------------------------------------------------------------
  // Set-up

  /** The outcome of Init given the three GDI resources it created (Null for
      one that could not be created): success exactly when all three exist,
      otherwise an expected error (a restart), never an unexpected one. */
  function InitOutcome(sourceDC: Handle, memoryDC: Handle, bitmap: Handle): (r: DuplReturn)
    ensures r == Success <==> sourceDC != Null && memoryDC != Null && bitmap != Null
    ensures r == ErrorExpected <==> sourceDC == Null || memoryDC == Null || bitmap == Null
    ensures r != ErrorUnexpected
  {
    if sourceDC == Null || memoryDC == Null || bitmap == Null then ErrorExpected else Success
  }

  // ---------------------------------------------------------------------
  // One frame

  /** One monitor frame: the capture bitmap is selected into the memory DC,
      the monitor is copied into it, the pixels are read back and the
      originally selected bitmap is restored before the image is handed on.
      A failed copy returns an expected error, restores the bitmap and hands
      nothing on; a failed read-back is only logged. */
  function MonitorFrame(selected: Monitor, current: Monitor, monitorDC: Handle, captureDC: Handle,
                        captureBMP: Handle, original: Handle, blitOk: bool, readOk: bool): (f: Frame)
    ensures f.ret != ErrorUnexpected
    ensures f.ret == Success <==> blitOk
    ensures |f.calls| > 2 && f.calls[0] == SelectObject(captureDC, captureBMP)
    ensures f.calls[1] == BitBlt(captureDC, 0, 0, selected.width, selected.height, monitorDC)
    ensures SelectedAfter(captureDC, original, f.calls) == original
    ensures blitOk ==> f.calls[|f.calls| - 1].ProcessCapture?
                       && f.calls[|f.calls| - 2] == SelectObject(captureDC, original)
  {
    var selectAndCopy := [SelectObject(captureDC, captureBMP)]
                         + [BitBlt(captureDC, 0, 0, selected.width, selected.height, monitorDC)];
    if !blitOk then
      var failed := selectAndCopy + [Log("BitBlt")];
      RestoredBySelect(captureDC, original, failed, original, []);
      assert failed + [SelectObject(captureDC, original)] + [] == failed + [SelectObject(captureDC, original)];
      Frame(ErrorExpected, failed + [SelectObject(captureDC, original)])
    else
      var get := GetDIBits(monitorDC, captureBMP, selected.height, DibHeader(selected.width, selected.height));
      var copied := selectAndCopy + [get];
      var read := if readOk then copied else copied + [Log("GetDIBits")];
      var deliver := ProcessCapture(current.width, current.height, Stride(selected.width));
      RestoredBySelect(captureDC, original, read, original, [deliver]);
      Frame(Success, read + [SelectObject(captureDC, original)] + [deliver])
  }

  /** The window's live client area still has the size the capture was set
      up for. */
  predicate SizeMatches(size: Point, client: ImageRect)
  {
    size.x == Width(client) && size.y == Height(client)
  }

  /** One window frame. A window that is gone or whose client area changed
      size makes the frame return an expected error (the capture is rebuilt)
      before any GDI call. Otherwise the capture bitmap is selected, the
      window is asked to print itself, and only if that fails is its DC
      copied instead; when both fail the frame returns an expected error.
      After a read-back whose failure is only logged, the originally
      selected bitmap is restored and the image is handed on with a stride
      of four bytes per pixel of the window's width. */
  function WindowFrame(size: Point, handle: Handle, dims: WindowDimensions, isWindow: bool,
                       monitorDC: Handle, captureDC: Handle, captureBMP: Handle, original: Handle,
                       printOk: bool, blitOk: bool, readOk: bool): (f: Frame)
    ensures f.ret != ErrorUnexpected
    ensures f.ret == ErrorExpected <==>
              !isWindow || !SizeMatches(size, dims.clientRect) || (!printOk && !blitOk)
    ensures !isWindow || !SizeMatches(size, dims.clientRect) ==>
              f.calls == [Log("ProcessFrame: window size changed")]
    ensures isWindow && SizeMatches(size, dims.clientRect) ==>
              |f.calls| > 3 && f.calls[0] == SelectObject(captureDC, captureBMP)
              && f.calls[1] == PrintWindow(handle, captureDC)
    ensures isWindow && SizeMatches(size, dims.clientRect) && !printOk ==>
              |f.calls| > 4 && f.calls[2] == Log("PrintWindow")
              && f.calls[3] == BitBlt(captureDC, -dims.clientBorder.left, -dims.clientBorder.top,
                                      dims.clientRect.right, dims.clientRect.bottom, monitorDC)
    ensures SelectedAfter(captureDC, original, f.calls) == original
    ensures f.ret == Success ==>
              |f.calls| > 3 && f.calls[|f.calls| - 1] == ProcessCapture(size.x, size.y, Stride(size.x))
              && f.calls[|f.calls| - 2] == SelectObject(captureDC, original)
  {
    var client := dims.clientRect;
    if !isWindow || !SizeMatches(size, client) then
      var calls := [Log("ProcessFrame: window size changed")];
      NoSelectKeeps(captureDC, original, calls);
      Frame(ErrorExpected, calls)
    else
      var printing := [SelectObject(captureDC, captureBMP)] + [PrintWindow(handle, captureDC)];
      var blit := BitBlt(captureDC, -dims.clientBorder.left, -dims.clientBorder.top,
                         client.right, client.bottom, monitorDC);
      var copying := if printOk then printing else printing + [Log("PrintWindow")] + [blit];
      if !printOk && !blitOk then
        var failed := copying + [Log("BitBlt")];
        RestoredBySelect(captureDC, original, failed, original, []);
        assert failed + [SelectObject(captureDC, original)] + [] == failed + [SelectObject(captureDC, original)];
        Frame(ErrorExpected, failed + [SelectObject(captureDC, original)])
      else
        var get := GetDIBits(monitorDC, captureBMP, Height(client), DibHeader(Width(client), Height(client)));
        var copied := copying + [get];
        var read := if readOk then copied else copied + [Log("GetDIBits")];
        var deliver := ProcessCapture(size.x, size.y, Stride(size.x));
        RestoredBySelect(captureDC, original, read, original, [deliver]);
        Frame(Success, read + [SelectObject(captureDC, original)] + [deliver])
  }

  /** The calls of a monitor frame: the image is read back and handed on
      exactly when the copy succeeds, a failed read-back leaves a log entry,
      the read-back asks for the selected monitor's size with the 32-bit
      top-down header, and the image is handed on with the current monitor's
      size and a stride of four bytes per pixel of the selected monitor. */
  lemma {:induction false} MonitorFrameCalls(f: Frame, selected: Monitor, current: Monitor, monitorDC: Handle,
                                             captureDC: Handle, captureBMP: Handle, original: Handle,
                                             blitOk: bool, readOk: bool)
    requires f == MonitorFrame(selected, current, monitorDC, captureDC, captureBMP, original, blitOk, readOk)
    ensures Delivers(f.calls) <==> blitOk
    ensures ReadsBack(f.calls) <==> blitOk
    ensures Log("GetDIBits") in f.calls <==> blitOk && !readOk
    ensures forall c :: c in f.calls && c.GetDIBits? ==>
              c == GetDIBits(monitorDC, captureBMP, selected.height, DibHeader(selected.width, selected.height))
    ensures forall c :: c in f.calls && c.ProcessCapture? ==>
              c == ProcessCapture(current.width, current.height, Stride(selected.width))
  {
    var select := SelectObject(captureDC, captureBMP);
    var blit := BitBlt(captureDC, 0, 0, selected.width, selected.height, monitorDC);
    var restore := SelectObject(captureDC, original);
    if !blitOk {
      assert f.calls == [select, blit, Log("BitBlt"), restore];
    } else {
      var get := GetDIBits(monitorDC, captureBMP, selected.height, DibHeader(selected.width, selected.height));
      var deliver := ProcessCapture(current.width, current.height, Stride(selected.width));
      if readOk {
        assert f.calls == [select, blit, get, restore, deliver];
      } else {
        assert f.calls == [select, blit, get, Log("GetDIBits"), restore, deliver];
      }
      assert f.calls[|f.calls| - 1] == deliver;
      assert f.calls[2] == get;
    }
  }

  /** The calls of a window frame: PrintWindow is tried exactly when the
      window is valid and unchanged in size, BitBlt exactly when PrintWindow
      then fails, and the image is read back and handed on exactly when the
      frame succeeds, always with the window's stored size. */
  lemma {:induction false} WindowFrameCalls(f: Frame, size: Point, handle: Handle, dims: WindowDimensions,
                                            isWindow: bool, monitorDC: Handle, captureDC: Handle,
                                            captureBMP: Handle, original: Handle,
                                            printOk: bool, blitOk: bool, readOk: bool)
    requires f == WindowFrame(size, handle, dims, isWindow, monitorDC, captureDC, captureBMP, original,
                              printOk, blitOk, readOk)
    ensures Prints(f.calls) <==> isWindow && SizeMatches(size, dims.clientRect)
    ensures Blits(f.calls) <==> isWindow && SizeMatches(size, dims.clientRect) && !printOk
    ensures Delivers(f.calls) <==> f.ret == Success
    ensures ReadsBack(f.calls) <==> f.ret == Success
    ensures Log("GetDIBits") in f.calls <==> f.ret == Success && !readOk
    ensures forall c :: c in f.calls && c.GetDIBits? ==>
              c == GetDIBits(monitorDC, captureBMP, size.y, DibHeader(size.x, size.y))
    ensures forall c :: c in f.calls && c.ProcessCapture? ==> c == ProcessCapture(size.x, size.y, Stride(size.x))
  {
    var client := dims.clientRect;
    if !isWindow || !SizeMatches(size, client) {
      assert f.calls == [Log("ProcessFrame: window size changed")];
    } else {
      var select := SelectObject(captureDC, captureBMP);
      var printing := PrintWindow(handle, captureDC);
      var blit := BitBlt(captureDC, -dims.clientBorder.left, -dims.clientBorder.top,
                         client.right, client.bottom, monitorDC);
      var restore := SelectObject(captureDC, original);
      var get := GetDIBits(monitorDC, captureBMP, size.y, DibHeader(size.x, size.y));
      var deliver := ProcessCapture(size.x, size.y, Stride(size.x));
      if printOk {
        WindowPrinted(f, select, printing, get, restore, deliver, readOk);
      } else if !blitOk {
        WindowCopyFailed(f, select, printing, blit, restore);
      } else {
        WindowBlitted(f, select, printing, blit, get, restore, deliver, readOk);
      }
    }
  }

  lemma WindowCopyFailed(f: Frame, select: GdiCall, printing: GdiCall, blit: GdiCall, restore: GdiCall)
    requires printing.PrintWindow? && blit.BitBlt?
    requires !select.GetDIBits? && !select.ProcessCapture? && !select.Log?
    requires !restore.GetDIBits? && !restore.ProcessCapture? && !restore.Log?
    requires f == Frame(ErrorExpected, [select, printing] + [Log("PrintWindow"), blit] + [Log("BitBlt"), restore])
    ensures Prints(f.calls) && Blits(f.calls) && !Delivers(f.calls) && !ReadsBack(f.calls)
    ensures Log("GetDIBits") !in f.calls
  {
    assert f.calls == [select, printing, Log("PrintWindow"), blit, Log("BitBlt"), restore];
    assert f.calls[1] == printing && f.calls[3] == blit;
  }

  lemma WindowBlitted(f: Frame, select: GdiCall, printing: GdiCall, blit: GdiCall, get: GdiCall, restore: GdiCall,
                      deliver: GdiCall, readOk: bool)
    requires printing.PrintWindow? && blit.BitBlt? && get.GetDIBits? && deliver.ProcessCapture?
    requires !select.GetDIBits? && !select.ProcessCapture? && !select.Log?
    requires !restore.GetDIBits? && !restore.ProcessCapture? && !restore.Log?
    requires f == Frame(Success, [select, printing] + [Log("PrintWindow"), blit] + [get]
                                 + (if readOk then [] else [Log("GetDIBits")]) + [restore, deliver])
    ensures Prints(f.calls) && Blits(f.calls) && Delivers(f.calls) && ReadsBack(f.calls)
    ensures Log("GetDIBits") in f.calls <==> !readOk
    ensures forall c :: c in f.calls && c.GetDIBits? ==> c == get
    ensures forall c :: c in f.calls && c.ProcessCapture? ==> c == deliver
  {
    var copied := [select, printing, Log("PrintWindow"), blit, get];
    var logged := if readOk then [] else [Log("GetDIBits")];
    var tail := [restore, deliver];
    assert f.calls == copied + logged + tail;
    BlittedPieces(copied, logged, tail, select, printing, blit, get, restore, deliver);
  }

  lemma BlittedPieces(copied: seq<GdiCall>, logged: seq<GdiCall>, tail: seq<GdiCall>,
                      select: GdiCall, printing: GdiCall, blit: GdiCall, get: GdiCall, restore: GdiCall,
                      deliver: GdiCall)
    requires printing.PrintWindow? && blit.BitBlt? && get.GetDIBits? && deliver.ProcessCapture?
    requires !select.GetDIBits? && !select.ProcessCapture? && !select.Log?
    requires !restore.GetDIBits? && !restore.ProcessCapture? && !restore.Log?
    requires copied == [select, printing, Log("PrintWindow"), blit, get] && tail == [restore, deliver]
    requires logged == [] || logged == [Log("GetDIBits")]
    ensures Prints(copied + logged + tail) && Blits(copied + logged + tail)
    ensures Delivers(copied + logged + tail) && ReadsBack(copied + logged + tail)
    ensures Log("GetDIBits") in copied + logged + tail <==> logged != []
    ensures forall c :: c in copied + logged + tail && c.GetDIBits? ==> c == get
    ensures forall c :: c in copied + logged + tail && c.ProcessCapture? ==> c == deliver
  {
    assert copied[1] == printing && copied[3] == blit && copied[4] == get && tail[1] == deliver;
    assert forall c :: c in copied + logged + tail ==> c in copied || c in logged || c in tail;
  }

  lemma WindowPrinted(f: Frame, select: GdiCall, printing: GdiCall, get: GdiCall, restore: GdiCall,
                      deliver: GdiCall, readOk: bool)
    requires printing.PrintWindow? && get.GetDIBits? && deliver.ProcessCapture?
    requires !select.BitBlt? && !select.GetDIBits? && !select.ProcessCapture? && !select.Log?
    requires !restore.BitBlt? && !restore.GetDIBits? && !restore.ProcessCapture? && !restore.Log?
    requires f == Frame(Success, [select, printing, get] + (if readOk then [] else [Log("GetDIBits")]) + [restore, deliver])
    ensures Prints(f.calls) && !Blits(f.calls) && Delivers(f.calls) && ReadsBack(f.calls)
    ensures Log("GetDIBits") in f.calls <==> !readOk
    ensures forall c :: c in f.calls && c.GetDIBits? ==> c == get
    ensures forall c :: c in f.calls && c.ProcessCapture? ==> c == deliver
  {
    if readOk {
      assert f.calls == [select, printing, get, restore, deliver];
    } else {
      assert f.calls == [select, printing, get, Log("GetDIBits"), restore, deliver];
    }
  }

  /** Dropping one log entry from a trace leaves its effects unchanged. */
  lemma DropLogEffects(a: seq<GdiCall>, operation: string, b: seq<GdiCall>)
    ensures Effects(a + [Log(operation)] + b) == Effects(a + b)
  {
    var log := [Log(operation)];
    assert log[1..] == [];
    assert Effects(log) == [] + Effects([]);
    EffectsConcat(a, log);
    assert Effects(a + log) == Effects(a);
    EffectsConcat(a + log, b);
    EffectsConcat(a, b);
  }

  /** A failed read-back changes nothing but the log: the return code and
      every non-log call of a monitor frame are the same either way. */
  lemma MonitorReadbackOnlyLogged(selected: Monitor, current: Monitor, monitorDC: Handle, captureDC: Handle,
                                  captureBMP: Handle, original: Handle, blitOk: bool)
    ensures MonitorFrame(selected, current, monitorDC, captureDC, captureBMP, original, blitOk, false).ret
         == MonitorFrame(selected, current, monitorDC, captureDC, captureBMP, original, blitOk, true).ret
    ensures Effects(MonitorFrame(selected, current, monitorDC, captureDC, captureBMP, original, blitOk, false).calls)
         == Effects(MonitorFrame(selected, current, monitorDC, captureDC, captureBMP, original, blitOk, true).calls)
  {
    if blitOk {
      var copied := [SelectObject(captureDC, captureBMP)]
                    + [BitBlt(captureDC, 0, 0, selected.width, selected.height, monitorDC)]
                    + [GetDIBits(monitorDC, captureBMP, selected.height, DibHeader(selected.width, selected.height))];
      var tail := [SelectObject(captureDC, original)]
                  + [ProcessCapture(current.width, current.height, Stride(selected.width))];
      assert MonitorFrame(selected, current, monitorDC, captureDC, captureBMP, original, blitOk, false).calls
          == copied + [Log("GetDIBits")] + tail;
      assert MonitorFrame(selected, current, monitorDC, captureDC, captureBMP, original, blitOk, true).calls
          == copied + tail;
      DropLogEffects(copied, "GetDIBits", tail);
    }
  }

  /** A failed read-back changes nothing but the log of a window frame
      either. */
  lemma WindowReadbackOnlyLogged(size: Point, handle: Handle, dims: WindowDimensions, isWindow: bool,
                                 monitorDC: Handle, captureDC: Handle, captureBMP: Handle, original: Handle,
                                 printOk: bool, blitOk: bool)
    ensures WindowFrame(size, handle, dims, isWindow, monitorDC, captureDC, captureBMP, original, printOk, blitOk, false).ret
         == WindowFrame(size, handle, dims, isWindow, monitorDC, captureDC, captureBMP, original, printOk, blitOk, true).ret
    ensures Effects(WindowFrame(size, handle, dims, isWindow, monitorDC, captureDC, captureBMP, original, printOk, blitOk, false).calls)
         == Effects(WindowFrame(size, handle, dims, isWindow, monitorDC, captureDC, captureBMP, original, printOk, blitOk, true).calls)
  {
    var client := dims.clientRect;
    if isWindow && SizeMatches(size, client) && (printOk || blitOk) {
      var printing := [SelectObject(captureDC, captureBMP)] + [PrintWindow(handle, captureDC)];
      var blit := BitBlt(captureDC, -dims.clientBorder.left, -dims.clientBorder.top,
                         client.right, client.bottom, monitorDC);
      var copying := if printOk then printing else printing + [Log("PrintWindow")] + [blit];
      var copied := copying + [GetDIBits(monitorDC, captureBMP, Height(client), DibHeader(Width(client), Height(client)))];
      var tail := [SelectObject(captureDC, original)] + [ProcessCapture(size.x, size.y, Stride(size.x))];
      assert WindowFrame(size, handle, dims, isWindow, monitorDC, captureDC, captureBMP, original, printOk, blitOk, false).calls
          == copied + [Log("GetDIBits")] + tail;
      assert WindowFrame(size, handle, dims, isWindow, monitorDC, captureDC, captureBMP, original, printOk, blitOk, true).calls
          == copied + tail;
      DropLogEffects(copied, "GetDIBits", tail);
    }
  }

  // ---------------------------------------------------------------------
  // The processor

  class GdiFrameProcessor {
    /** Size of the image buffer, fixed by the capture loop before Init. */
    var imageBufferSize: nat
    var selectedMonitor: Monitor
    var selectedWindow: Handle
    /** Device context of the monitor, or of the whole window. */
    var monitorDC: Handle
    /** Memory device context the frame is copied into. */
    var captureDC: Handle
    /** Bitmap compatible with monitorDC, selected into captureDC per frame. */
    var captureBMP: Handle
    var newImageBuffer: array<bv8>
    /** The thread data; set by a successful Init only. */
    var data: ThreadData?

    constructor (imageBufferSize: nat)
      ensures this.imageBufferSize == imageBufferSize
      ensures monitorDC == Null && captureDC == Null && captureBMP == Null && data == null
    {
      this.imageBufferSize := imageBufferSize;
      selectedMonitor := Monitor(0, "", 0, 0);
      selectedWindow := Null;
      monitorDC, captureDC, captureBMP := Null, Null, Null;
      newImageBuffer := new bv8[0];
      data := null;
    }

    /** All three GDI resources exist and the thread data is known: what a
        successful Init establishes. */
    predicate Ready()
      reads this
    {
      monitorDC != Null && captureDC != Null && captureBMP != Null && data != null
    }

    /** Init for a monitor, given the device context CreateDCA returns for
        it, the memory DC and the bitmap created from that. The selected
        monitor, the three handles and a fresh zeroed image buffer are
        stored whatever the outcome; the thread data only on success. */
    method InitMonitor(d: ThreadData, monitor: Monitor, sourceDC: Handle, memoryDC: Handle, bitmap: Handle)
      returns (ret: DuplReturn)
      modifies this
      ensures ret == InitOutcome(sourceDC, memoryDC, bitmap)
      ensures Ready() <==> ret == Success
      ensures selectedMonitor == monitor && selectedWindow == old(selectedWindow)
      ensures monitorDC == sourceDC && captureDC == memoryDC && captureBMP == bitmap
      ensures data == if ret == Success then d else old(data)
      ensures imageBufferSize == old(imageBufferSize)
      ensures fresh(newImageBuffer) && newImageBuffer.Length == imageBufferSize
      ensures forall i :: 0 <= i < newImageBuffer.Length ==> newImageBuffer[i] == 0
    {
      selectedMonitor := monitor;
      ret := Success;
      monitorDC := sourceDC;
      captureDC := memoryDC;
      captureBMP := bitmap;
      newImageBuffer := new bv8[imageBufferSize](_ => 0);
      if monitorDC == Null || captureDC == Null || captureBMP == Null {
        return ErrorExpected;
      }
      data := d;
    }

    /** Init for a window, given the window's own DC (GetWindowDC), the
        memory DC and the bitmap of the window's size. Same outcome and the
        same stores as InitMonitor, with the window's handle in place of the
        monitor. */
    method InitWindow(d: ThreadData, window: Window, windowDC: Handle, memoryDC: Handle, bitmap: Handle)
      returns (ret: DuplReturn)
      modifies this
      ensures ret == InitOutcome(windowDC, memoryDC, bitmap)
      ensures Ready() <==> ret == Success
      ensures selectedWindow == window.handle && selectedMonitor == old(selectedMonitor)
      ensures monitorDC == windowDC && captureDC == memoryDC && captureBMP == bitmap
      ensures data == if ret == Success then d else old(data)
      ensures imageBufferSize == old(imageBufferSize)
      ensures fresh(newImageBuffer) && newImageBuffer.Length == imageBufferSize
      ensures forall i :: 0 <= i < newImageBuffer.Length ==> newImageBuffer[i] == 0
    {
      selectedWindow := window.handle;
      ret := Success;
      newImageBuffer := new bv8[imageBufferSize](_ => 0);
      monitorDC := windowDC;
      captureDC := memoryDC;
      captureBMP := bitmap;
      if monitorDC == Null || captureDC == Null || captureBMP == Null {
        return ErrorExpected;
      }
      data := d;
    }

    /** One monitor frame. `original` is the bitmap SelectObject reports as
        previously selected; `blitOk` and `readOk` are the outcomes of BitBlt
        and GetDIBits. */
    method ProcessMonitorFrame(current: Monitor, original: Handle, blitOk: bool, readOk: bool)
      returns (ret: DuplReturn, calls: seq<GdiCall>)
      requires blitOk ==> data != null
      ensures Frame(ret, calls)
           == MonitorFrame(selectedMonitor, current, monitorDC, captureDC, captureBMP, original, blitOk, readOk)
    {
      ret := Success;
      var width, height := selectedMonitor.width, selectedMonitor.height;
      calls := [SelectObject(captureDC, captureBMP)];
      calls := calls + [BitBlt(captureDC, 0, 0, width, height, monitorDC)];
      if !blitOk {
        calls := calls + [Log("BitBlt")];
        // the screen cannot be captured, most likely for lack of permission
        calls := calls + [SelectObject(captureDC, original)];
        return ErrorExpected, calls;
      }
      var bi := DibHeader(width, height);
      calls := calls + [GetDIBits(monitorDC, captureBMP, height, bi)];
      if !readOk {
        calls := calls + [Log("GetDIBits")];
      }
      calls := calls + [SelectObject(captureDC, original)];
      calls := calls + [ProcessCapture(current.width, current.height, Stride(selectedMonitor.width))];
    }

    /** One window frame. `dims` is the window's live geometry, `isWindow`
        whether the stored window handle is still valid, and `printOk`,
        `blitOk`, `readOk` the outcomes of PrintWindow, BitBlt and
        GetDIBits. The window's position is set to its client area's
        top-left corner before anything is checked. */
    method ProcessWindowFrame(window: Window, dims: WindowDimensions, isWindow: bool, original: Handle,
                              printOk: bool, blitOk: bool, readOk: bool)
      returns (ret: DuplReturn, calls: seq<GdiCall>)
      requires isWindow && SizeMatches(window.size, dims.clientRect) && (printOk || blitOk) ==> data != null
      modifies window
      ensures window.position == Point(dims.clientRect.left, dims.clientRect.top)
      ensures window.size == old(window.size)
      ensures Frame(ret, calls)
           == WindowFrame(window.size, window.handle, dims, isWindow, monitorDC, captureDC, captureBMP, original,
                          printOk, blitOk, readOk)
    {
      ret := Success;
      var rect := dims.clientRect;
      window.position := Point(rect.left, rect.top);
      if !isWindow || window.size.x != Width(rect) || window.size.y != Height(rect) {
        // the window size changed: everything is rebuilt
        return ErrorExpected, [Log("ProcessFrame: window size changed")];
      }
      calls := [SelectObject(captureDC, captureBMP)];
      var left, top := -dims.clientBorder.left, -dims.clientBorder.top;
      calls := calls + [PrintWindow(window.handle, captureDC)];
      var result := printOk;
      if !result {
        calls := calls + [Log("PrintWindow")];
        calls := calls + [BitBlt(captureDC, left, top, rect.right, rect.bottom, monitorDC)];
        result := blitOk;
      }
      if !result {
        calls := calls + [Log("BitBlt")];
        calls := calls + [SelectObject(captureDC, original)];
        return ErrorExpected, calls;
      }
      var bi := DibHeader(Width(rect), Height(rect));
      calls := calls + [GetDIBits(monitorDC, captureBMP, Height(rect), bi)];
      if !readOk {
        calls := calls + [Log("GetDIBits")];
      }
      calls := calls + [SelectObject(captureDC, original)];
      calls := calls + [ProcessCapture(window.size.x, window.size.y, Stride(window.size.x))];
    }
  }
}
