/** The linear framebuffer (lfb.c) and the screen service in front of it (screen.c), as the
  imperative code, proved against ScreenSpec and a picture. */
module ScreenDriver {
  import opened Common
  import opened ProcSpec
  import opened Permissions
  import opened ProcTable
  import opened ScreenSpec

  type Picture = seq<seq<nat>>

  /** The picture after an operation: a cleared one has a single color, a pixel outside the
    picture is ignored. */
  function Paint(p: Picture, op: Op): Picture {
    match op
    case Clear(color) => seq(|p|, y requires 0 <= y < |p| => seq(|p[y]|, _ => color))
    case Put(x, y, color) =>
      if y < |p| && x < |p[y]| then SetPixel(p, x, y, color) else p
  }

  function SetPixel(p: Picture, x: nat, y: nat, color: nat): Picture
    requires y < |p| && x < |p[y]|
  {
    var row: seq<nat> := p[y][x := color];
    p[y := row]
  }

  function PaintAll(p: Picture, ops: seq<Op>): Picture
    decreases |ops|
  {
    if ops == [] then p else PaintAll(Paint(p, ops[0]), ops[1..])
  }

  lemma {:induction false} PaintAllAppend(p: Picture, a: seq<Op>, b: seq<Op>)
    ensures PaintAll(p, a + b) == PaintAll(PaintAll(p, a), b)
    decreases |a|
  {
    if a == [] {
      assert a + b == b;
    } else {
      PaintAllAppend(Paint(p, a[0]), a[1..], b);
      assert (a + b)[1..] == a[1..] + b;
    }
  }

  // ----- what a pixel shows ----------------------------------------------------------------------

  /** The operation colors the pixel in column x of row y. */
  predicate Covers(op: Op, x: nat, y: nat) {
    op.Clear? || (op.x == x && op.y == y)
  }

  /** The color of the last operation that covers the pixel, or what was there before. */
  function LastColor(ops: seq<Op>, x: nat, y: nat, before: nat): nat {
    if ops == [] then before
    else
      var last := ops[|ops| - 1];
      if Covers(last, x, y) then last.color else LastColor(ops[..|ops| - 1], x, y, before)
  }

  ghost predicate SameSize(p: Picture, q: Picture) {
    |p| == |q| && forall y :: 0 <= y < |p| ==> |p[y]| == |q[y]|
  }

  lemma PaintPixel(p: Picture, op: Op)
    ensures SameSize(p, Paint(p, op))
    ensures forall x: nat, y: nat :: y < |p| && x < |p[y]| ==>
      Paint(p, op)[y][x] == if Covers(op, x, y) then op.color else p[y][x]
  {
  }

  /** Each pixel shows the color of the last operation that covers it. */
  lemma {:induction false} PixelShowsLast(p: Picture, ops: seq<Op>)
    ensures SameSize(p, PaintAll(p, ops))
    ensures forall x: nat, y: nat :: y < |p| && x < |p[y]| ==>
      PaintAll(p, ops)[y][x] == LastColor(ops, x, y, p[y][x])
    decreases |ops|
  {
    if ops == [] {
    } else {
      var front, last := ops[..|ops| - 1], ops[|ops| - 1];
      PixelShowsLast(p, front);
      PaintAllAppend(p, front, [last]);
      assert ops == front + [last] && [last][1..] == [];
      var q := PaintAll(p, front);
      PaintPixel(q, last);
      assert PaintAll(q, [last]) == Paint(q, last);
    }
  }

  lemma Later(x: nat, y: nat, x': nat, d: nat, stride: nat)
    requires x < stride && d > 0
    ensures x + y * stride < x' + (y + d) * stride
  {
    assert (y + d) * stride == y * stride + d * stride;
    assert d * stride >= stride;
  }

  /** Two pixels of rows of `stride` words share an index only if they are the same pixel. */
  lemma IndexInjective(x: nat, y: nat, x': nat, y': nat, stride: nat)
    requires x < stride && x' < stride && x + y * stride == x' + y' * stride
    ensures x == x' && y == y'
  {
    if y < y' {
      Later(x, y, x', y' - y, stride);
    } else if y' < y {
      Later(x', y', x, y - y', stride);
    }
  }

  lemma IndexInRange(x: nat, y: nat, stride: nat, height: nat)
    requires x < stride && y < height
    ensures x + y * stride < height * stride
  {
    Later(x, y, 0, height - y, stride);
  }

  /** The visible part of a framebuffer. */
  ghost function ImageOf(words: seq<nat>, width: nat, height: nat, stride: nat): (p: Picture)
    requires width <= stride && height * stride <= |words|
    ensures |p| == height && forall y :: 0 <= y < height ==> |p[y]| == width
  {
    seq(height, y requires 0 <= y < height =>
      seq(width, x requires 0 <= x < width => (IndexInRange(x, y, stride, height); words[x + y * stride])))
  }

  lemma StoreSetsPixel(words: seq<nat>, width: nat, height: nat, stride: nat, x: nat, y: nat, color: nat)
    requires width <= stride && height * stride <= |words| && x < width && y < height
    ensures x + y * stride < |words|
    ensures ImageOf(words[x + y * stride := color], width, height, stride)
         == SetPixel(ImageOf(words, width, height, stride), x, y, color)
  {
    IndexInRange(x, y, stride, height);
    var words' := words[x + y * stride := color];
    var p, q := ImageOf(words', width, height, stride), SetPixel(ImageOf(words, width, height, stride), x, y, color);
    forall y' | 0 <= y' < height ensures p[y'] == q[y'] {
      forall x' | 0 <= x' < width ensures p[y'][x'] == q[y'][x'] {
        IndexInRange(x', y', stride, height);
        if x' + y' * stride == x + y * stride { IndexInjective(x', y', x, y, stride); }
      }
    }
  }

  class Framebuffer {
    const width: nat
    const height: nat
    const pitch: nat
    const words: array<nat>

    /** Rows do not overlap, and the mode has at least one pixel. */
    ghost predicate Valid()
      reads this
    {
      && 1 <= width < TWO_TO_THE_32 && 1 <= height < TWO_TO_THE_32
      && width <= pitch / 4
      && words.Length >= height * (pitch / 4)
    }

    constructor (width: nat, height: nat, pitch: nat, words: array<nat>)
      requires 1 <= width < TWO_TO_THE_32 && 1 <= height < TWO_TO_THE_32
      requires width <= pitch / 4 && words.Length >= height * (pitch / 4)
      ensures Valid() && this.words == words
    {
      this.width, this.height, this.pitch, this.words := width, height, pitch, words;
    }

    function PixelIndex(x: nat, y: nat): nat {
      x + y * (pitch / 4)
    }

    /** What is visible on the screen. */
    ghost function Image(): (p: Picture)
      reads this, words
      requires Valid()
      ensures |p| == height && forall y :: 0 <= y < height ==> |p[y]| == width
    {
      ImageOf(words[..], width, height, pitch / 4)
    }

    ghost predicate Visible(i: nat) {
      exists x: nat, y: nat :: x < width && y < height && PixelIndex(x, y) == i
    }

    /** The store that both functions make. */
    method StorePixel(x: nat, y: nat, color: nat)
      requires Valid() && x < width && y < height
      modifies words
      ensures Valid() && Image() == SetPixel(old(Image()), x, y, color)
      ensures forall i :: 0 <= i < words.Length ==>
        words[i] == if i == x + y * (pitch / 4) then color else old(words[i])
      ensures forall i :: 0 <= i < words.Length && !Visible(i) ==> words[i] == old(words[i])
    {
      StoreSetsPixel(words[..], width, height, pitch / 4, x, y, color);
      ghost var was := words[..];
      words[PixelIndex(x, y)] := color;
      assert words[..] == was[PixelIndex(x, y) := color];
      assert Visible(PixelIndex(x, y));
    }

    /** lfb_put_pixel: one word of the framebuffer, and one pixel of the picture. */
    method PutPixel(x: nat, y: nat, color: nat)
      requires Valid()
      modifies words
      ensures Valid() && Image() == Paint(old(Image()), Put(x, y, color))
      ensures forall column: nat, row: nat :: column < width && row < height ==>
        Image()[row][column] == if column == x && row == y then color else old(Image())[row][column]
      ensures forall i :: 0 <= i < words.Length ==>
        words[i] == if x < width && y < height && i == x + y * (pitch / 4) then color else old(words[i])
      ensures forall i :: 0 <= i < words.Length && !Visible(i) ==> words[i] == old(words[i])
    {
      if x > width - 1 || y > height - 1 {
        return;
      }
      StorePixel(x, y, color);
    }

    /** lfb_clear_screen. */
    method ClearScreen(color: nat)
      requires Valid()
      modifies words
      ensures Valid() && Image() == Paint(old(Image()), Clear(color))
      ensures forall column: nat, row: nat :: column < width && row < height ==> Image()[row][column] == color
      ensures forall i :: 0 <= i < words.Length && !Visible(i) ==> words[i] == old(words[i])
    {
      ghost var cleared := Paint(Image(), Clear(color));
      var y := 0;
      while y < height
        invariant 0 <= y <= height && Valid()
        invariant Image()[..y] == cleared[..y]
        invariant forall i :: 0 <= i < words.Length && !Visible(i) ==> words[i] == old(words[i])
      {
        var x := 0;
        while x < width
          invariant 0 <= x <= width && Valid()
          invariant Image()[..y] == cleared[..y]
          invariant Image()[y][..x] == cleared[y][..x]
          invariant forall i :: 0 <= i < words.Length && !Visible(i) ==> words[i] == old(words[i])
        {
          StorePixel(x, y, color);
          x := x + 1;
        }
        assert Image()[y] == cleared[y];
        y := y + 1;
      }
      assert Image() == Image()[..height] == cleared[..height] == cleared;
    }
  }

  /** The service, the process table that says who calls, and the framebuffer.  `model` is the
    machine of ScreenSpec that it is, and `base` what was visible at the start. */
  class ScreenService {
    var bursting: bool
    var savedReq: nat
    var dataIndex: nat
    var x: nat
    var y: nat
    var color: nat
    const lfb: Framebuffer
    const table: Table

    ghost var model: Display
    ghost const base: Picture

    ghost function State(): Screen
      reads this
    {
      Screen(bursting, savedReq, dataIndex, x, y, color)
    }

    /** What is visible is what all operations performed so far have made of the picture. */
    ghost predicate Valid()
      reads this, lfb, lfb.words, table, table.nodes, table.driverTypes
    {
      && lfb.Valid() && table.Valid()
      && model.k == table.model && model.screen == State() && DisplayOk(model, IDLE)
      && lfb.Image() == PaintAll(base, model.performed)
    }

    constructor (lfb: Framebuffer, table: Table)
      requires lfb.Valid() && table.Valid() && Exclusive(table.model)
      ensures Valid() && this.lfb == lfb && this.table == table
      ensures model == Display(table.model, IDLE, [], []) && base == lfb.Image()
    {
      this.lfb, this.table := lfb, table;
      bursting, savedReq, dataIndex, x, y, color := false, 0, 0, 0, 0, 0;
      model, base := Display(table.model, IDLE, [], []), lfb.Image();
    }

    /** The processes have made a step. */
    ghost method Follow(step: Step)
      requires lfb.Valid() && table.Valid() && DisplayOk(model, IDLE) && model.screen == State()
      requires Shape(model.k) && table.model == Next(model.k, step)
      requires lfb.Image() == PaintAll(base, model.performed)
      modifies `model
      ensures Valid() && model == Act(old(model), Kernel(step))
    {
      ActOk(model, IDLE, Kernel(step));
      model := Act(model, Kernel(step));
    }

    method ProcessRequest(req: nat) returns (status: Status)
      requires lfb.Valid()
      modifies `bursting, `savedReq, `dataIndex, `x, `y, `color, lfb.words
      ensures lfb.Valid()
      ensures var (state, ops, result) := ProcessReq(old(State()), req);
        State() == state && status == result && lfb.Image() == PaintAll(old(lfb.Image()), ops)
    {
      if savedReq == SCREENUAPI_CLEARSCREEN {
        if dataIndex == 0 {
          color := req;
        }
        dataIndex := dataIndex + 1;
        if dataIndex >= MAXARGS_CLEARSCREEN {
          lfb.ClearScreen(Cut(color));
          dataIndex := 0;
          return UapiOk;
        }
      } else if savedReq == SCREENUAPI_PUTPIXEL {
        if dataIndex == 0 {
          x := req;
        } else if dataIndex == 1 {
          y := req;
        } else if dataIndex == 2 {
          color := req;
        }
        dataIndex := dataIndex + 1;
        if dataIndex >= MAXARGS_PUTPIXEL {
          dataIndex := 0;
          lfb.PutPixel(Cut(x), Cut(y), Cut(color));
          return UapiOk;
        }
      }
      return CmdburstContinue;
    }

    /** screen_uapi behind its ownership check. */
    method Accept(req: nat) returns (status: Status)
      requires lfb.Valid()
      modifies `bursting, `savedReq, `dataIndex, `x, `y, `color, lfb.words
      ensures lfb.Valid()
      ensures var (state, ops, result) := Feed(old(State()), req);
        State() == state && status == result && lfb.Image() == PaintAll(old(lfb.Image()), ops)
    {
      if !bursting {
        if req == SCREENUAPI_CLEARSCREEN {
          savedReq, bursting := SCREENUAPI_CLEARSCREEN, true;
        } else if req == SCREENUAPI_PUTPIXEL {
          savedReq, bursting := SCREENUAPI_PUTPIXEL, true;
        }
      } else {
        status := ProcessRequest(req);
        if status != CmdburstContinue {
          savedReq, bursting := 0, false;
        }
        return status;
      }
      return UapiOk;
    }

    /** screen_uapi, called by a process that is in the ring. */
    method ScreenUapi(req: nat) returns (status: Status)
      requires Valid() && table.model.curNext.None?
      modifies this, lfb.words
      ensures Valid() && model == Act(old(model), Request(req))
      ensures Owns(table.model, table.model.cur, DRIVERTYPE_DISPLAY) ==>
        status == Feed(old(State()), req).2 && lfb.Image() == PaintAll(old(lfb.Image()), Feed(old(State()), req).1)
      ensures !Owns(table.model, table.model.cur, DRIVERTYPE_DISPLAY) ==>
        status == PermissionDenied && model == old(model) && lfb.Image() == old(lfb.Image())
    {
      var owned := table.VerifyDrvmaster(DRIVERTYPE_DISPLAY);
      if owned < 0 {
        return PermissionDenied;
      }
      ghost var ops := Feed(State(), req).1;
      PaintAllAppend(base, model.performed, ops);
      ActOk(model, IDLE, Request(req));
      model := Act(model, Request(req));
      status := Accept(req);
    }

    /** Whatever the processes have done and whoever has asked, the visible picture is the one at
      the start with the commands of one process drawn on it, decoded from its own requests: each
      pixel shows the color of the last command that covers it. */
    lemma PictureIsDecoded()
      requires Valid()
      ensures lfb.Image() == PaintAll(base, Decode(Requests(model.passed)))
      ensures |base| == lfb.height && forall y :: 0 <= y < lfb.height ==> |base[y]| == lfb.width
      ensures forall x: nat, y: nat :: x < lfb.width && y < lfb.height ==>
        lfb.Image()[y][x] == LastColor(Decode(Requests(model.passed)), x, y, base[y][x])
      ensures forall i, j :: 0 <= i < |model.passed| && 0 <= j < |model.passed| ==>
        model.passed[i].0 == model.passed[j].0
    {
      FeedDecodes(IDLE, Requests(model.passed));
      PixelShowsLast(base, Decode(Requests(model.passed)));
    }

    /** Requests of the display's owner in a row: from rest, what they spell out is drawn. */
    method Serve(reqs: seq<nat>)
      requires Valid() && table.model.curNext.None? && Resting(State())
      requires Owns(table.model, table.model.cur, DRIVERTYPE_DISPLAY)
      modifies this, lfb.words
      ensures Valid() && lfb.Image() == PaintAll(old(lfb.Image()), Decode(reqs))
      ensures forall x: nat, y: nat :: x < lfb.width && y < lfb.height ==>
        lfb.Image()[y][x] == LastColor(Decode(reqs), x, y, old(lfb.Image())[y][x])
    {
      ghost var start, picture := State(), lfb.Image();
      for i := 0 to |reqs|
        invariant Valid() && table.model == old(table.model)
        invariant FeedAll(start, reqs[..i]).0 == State()
        invariant lfb.Image() == PaintAll(picture, FeedAll(start, reqs[..i]).1)
      {
        FeedAllAppend(start, reqs[..i], [reqs[i]]);
        FeedOne(State(), reqs[i]);
        assert reqs[..i + 1] == reqs[..i] + [reqs[i]];
        PaintAllAppend(picture, FeedAll(start, reqs[..i]).1, Feed(State(), reqs[i]).1);
        var status := ScreenUapi(reqs[i]);
      }
      assert reqs[..|reqs|] == reqs;
      FeedDecodes(start, reqs);
      PixelShowsLast(picture, Decode(reqs));
    }
  }

  lemma FeedOne(s: Screen, req: nat)
    ensures FeedAll(s, [req]) == (Feed(s, req).0, Feed(s, req).1)
  {
    assert [req][1..] == [];
    assert Feed(s, req).1 + [] == Feed(s, req).1;
  }
}
