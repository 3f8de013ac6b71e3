/** Screen pagination: counting rows and stopping for a key when the screen is full. */
module Pager {
  import opened Machine

  /**
    page_mode, screen_height, screen_width and lines_printed, with the keys waiting on the console (none left reads
    as end of file) and whether Ctrl-C has been signalled.
   */
  datatype Page = Page(mode: bool, height: int, width: int, lines: int, keys: string, interrupted: bool) {
    predicate Paging() {
      mode && height > 0
    }

    /** While paging on a screen of at least two rows there is always room left above the prompt. */
    predicate Valid() {
      lines >= 0 && (Paging() ==> lines == 0 || lines < height - 1)
    }
  }

  /** Screen rows taken by a line of visible characters: the least number that holds them all. */
  function WrapRows(width: int, visible: int): (rows: int)
    ensures rows >= 1
    ensures width <= 0 || visible <= 0 ==> rows == 1
    ensures width > 0 && visible > 0 ==> (rows - 1) * width < visible <= rows * width
  {
    if width <= 0 || visible <= width then 1
    else
      assert (visible + width - 1) / width >= 1 by {
        DivMod(visible + width - 1, width);
        CeilingIsPositive(visible, width);
      }
      CeilingBounds(visible, width);
      (visible + width - 1) / width
  }

  lemma CeilingBounds(visible: int, width: int)
    requires visible > 0 && width > 0
    ensures var rows := (visible + width - 1) / width; (rows - 1) * width < visible <= rows * width
  {
    var x := visible + width - 1;
    DivMod(x, width);
    var rows := x / width;
    assert (rows - 1) * width == rows * width - width;
  }

  lemma CeilingIsPositive(visible: int, width: int)
    requires visible > 0 && width > 0
    ensures (visible + width - 1) / width >= 1
  {
    var rows := (visible + width - 1) / width;
    DivMod(visible + width - 1, width);
    if rows <= 0 {
      assert rows * width <= 0 by { MulNonPositive(rows, width); }
    }
  }

  lemma MulNonPositive(a: int, b: int)
    requires a <= 0 && b > 0
    ensures a * b <= 0
  {}

  /** The full screen: wait for one key. Q pages no more, Ctrl-C also signals a break, end of file pages no more. */
  function Prompt(p: Page): Page {
    if p.keys == "" then p.(mode := false, lines := 0)
    else
      var q := p.(keys := p.keys[1..], lines := 0);
      if p.keys[0] == 'q' || p.keys[0] == 'Q' then q.(mode := false)
      else if p.keys[0] as int == 3 then q.(mode := false, interrupted := true)
      else q
  }

  function Advanced(p: Page, rows: int): Page {
    if !p.Paging() then p
    else if p.lines + rows < p.height - 1 then p.(lines := p.lines + rows)
    else Prompt(p)
  }

  class ScreenPager {
    var pageMode: bool
    var screenHeight: int
    var screenWidth: int
    var linesPrinted: int
    var keys: string
    var interrupted: bool

    ghost function State(): Page
      reads this
    {
      Page(pageMode, screenHeight, screenWidth, linesPrinted, keys, interrupted)
    }

    constructor (keys: string)
      ensures State() == Page(false, 0, 0, 0, keys, false)
    {
      pageMode, screenHeight, screenWidth, linesPrinted := false, 0, 0, 0;
      this.keys, interrupted := keys, false;
    }

    /** Paging is switched on only for an interactive console whose size could be read. */
    method SetPage(flag: bool, interactive: bool, height: int, width: int)
      modifies this
      ensures State() == if !flag || !interactive then old(State()).(mode := false)
                         else old(State()).(mode := height > 0, height := height, width := width)
    {
      pageMode := flag;
      if flag {
        if !interactive {
          pageMode := false;
          return;
        }
        screenHeight, screenWidth := height, width;
        if screenHeight <= 0 {
          pageMode := false;
        }
      }
    }

    method PageAdvance(rows: int)
      modifies this
      ensures State() == Advanced(old(State()), rows)
    {
      if !pageMode || screenHeight <= 0 {
        return;
      }
      linesPrinted := linesPrinted + rows;
      if linesPrinted < screenHeight - 1 {
        return;
      }
      if keys != "" {
        var ch := keys[0];
        keys := keys[1..];
        if ch == 'q' || ch == 'Q' {
          pageMode := false;
        } else if ch as int == 3 {
          interrupted := true;
          pageMode := false;
        }
      } else {
        pageMode := false;
      }
      linesPrinted := 0;
    }
  }

  // ---- A whole run of the screen ----

  /** What happened over a run: rows printed while paging, rows closed off by prompts, and the prompts. */
  datatype Tally = Tally(page: Page, printed: nat, closedOff: int, prompts: nat)

  /** One more line. */
  function Stepped(t: Tally, r: nat): Tally {
    var page := Advanced(t.page, r);
    if !t.page.Paging() then t
    else if t.page.lines + r < t.page.height - 1 then Tally(page, t.printed + r, t.closedOff, t.prompts)
    else Tally(page, t.printed + r, t.closedOff + (t.page.lines + r), t.prompts + 1)
  }

  function Run(p: Page, rows: seq<nat>): Tally {
    if rows == [] then Tally(p, 0, 0, 0) else Stepped(Run(p, rows[..|rows| - 1]), rows[|rows| - 1])
  }

  /** One prompt more keeps both bounds on the rows closed off. */
  lemma OnePromptMore(prompts: nat, closedOff: int, gap: int, lo: int, hi: int)
    requires prompts * lo <= closedOff <= prompts * hi && lo <= gap <= hi
    ensures (prompts + 1) * lo <= closedOff + gap <= (prompts + 1) * hi
  {}

  /** What one key does to the page. */
  lemma PromptEffect(p: Page)
    ensures var q := Prompt(p);
            && q.Valid() && q.lines == 0 && q.height == p.height
            && |p.keys| - |q.keys| <= 1 && (q.mode ==> p.mode && |p.keys| - |q.keys| == 1)
            && (q.interrupted && !p.interrupted ==> !q.mode)
  {}

  /** The most rows that can stand above the prompt. */
  function Room(height: int): nat {
    if height >= 2 then height - 2 else 0
  }

  /** The accounts of a run so far. */
  ghost predicate Accounts(p: Page, t: Tally, longest: nat) {
    && t.page.Valid() && t.page.height == p.height
    && t.closedOff + t.page.lines == p.lines + t.printed
    && t.prompts * (p.height - 1) <= t.closedOff <= t.prompts * (Room(p.height) + longest)
    && (t.page.mode ==> p.mode && |p.keys| - |t.page.keys| == t.prompts)
    && |p.keys| - |t.page.keys| <= t.prompts
    && (t.page.interrupted && !p.interrupted ==> !t.page.mode)
  }

  /**
    Over every run, on a screen of any height: the screen never overfills while paging is on; every row printed is
    either closed off by a prompt or still counted; each prompt closes off at least height - 1 rows and at most
    height - 2 plus the longest line; and every prompt but the one that ends paging takes exactly one key.
   */
  lemma {:induction false} PagingAccounts(p: Page, rows: seq<nat>, longest: nat)
    requires p.Valid() && forall r <- rows :: r <= longest
    ensures Accounts(p, Run(p, rows), longest)
  {
    if rows == [] {
    } else {
      hide Stepped, Accounts;
      var front, r := rows[..|rows| - 1], rows[|rows| - 1];
      assert r in rows && forall r' <- front :: r' in rows;
      PagingAccounts(p, front, longest);
      AccountsGoOn(p, Run(p, front), r, longest);
    }
  }

  lemma AccountsGoOn(p: Page, t: Tally, r: nat, longest: nat)
    requires Accounts(p, t, longest) && r <= longest
    ensures Accounts(p, Stepped(t, r), longest)
  {
    hide Prompt;
    if t.page.Paging() && t.page.lines + r >= t.page.height - 1 {
      PromptEffect(t.page);
      OnePromptMore(t.prompts, t.closedOff, t.page.lines + r, p.height - 1, Room(p.height) + longest);
    }
  }

  /** The keys after which paging goes on. */
  predicate Continues(key: char) {
    key != 'q' && key != 'Q' && key as int != 3
  }

  /** How the keys taken so far decide whether paging goes on. */
  ghost predicate KeysDecide(p: Page, t: Tally) {
    && (t.page.mode <==> t.prompts <= |p.keys| && forall i :: 0 <= i < t.prompts ==> Continues(p.keys[i]))
    && t.page.keys == p.keys[if t.prompts <= |p.keys| then t.prompts else |p.keys|..]
    && (t.page.interrupted <==> p.interrupted || (0 < t.prompts <= |p.keys| && p.keys[t.prompts - 1] as int == 3))
    && t.page.height == p.height
  }

  /**
    Each prompt takes one key while there are keys. Paging is still on after a run exactly if every prompt found a key
    and none of them was Q or Ctrl-C, and a break has been signalled exactly if the last key taken was Ctrl-C.
   */
  lemma {:induction false} PagingEndsIff(p: Page, rows: seq<nat>)
    requires p.Paging()
    ensures KeysDecide(p, Run(p, rows))
  {
    if rows != [] {
      hide Stepped, KeysDecide;
      PagingEndsIff(p, rows[..|rows| - 1]);
      NextKeyDecides(p, Run(p, rows[..|rows| - 1]), rows[|rows| - 1]);
    } else {
      assert p.keys[0..] == p.keys;
    }
  }

  lemma NextKeyDecides(p: Page, t: Tally, r: nat)
    requires p.Paging() && KeysDecide(p, t)
    ensures KeysDecide(p, Stepped(t, r))
  {
    if t.page.mode {
      assert t.page.keys == p.keys[t.prompts..];
    }
  }

  /** Once paging is off it stays off, and nothing on the page changes any more. */
  lemma {:induction false} PagingStaysOff(p: Page, rows: seq<nat>)
    requires !p.mode
    ensures Run(p, rows) == Tally(p, 0, 0, 0)
  {
    if rows == [] {
    } else {
      PagingStaysOff(p, rows[..|rows| - 1]);
    }
  }
}
