/** The sidebar's collapsed flag (store/sidebar-store.ts). */
module SidebarStore {

  /** The store's state, as the `useSidebarStore` hook shares it. */
  class SidebarState {
    var isCollapsed: bool

    /** The sidebar starts expanded. */
    constructor()
      ensures !isCollapsed
    {
      isCollapsed := false;
    }

    method Toggle()
      modifies this
      ensures isCollapsed == !old(isCollapsed)
    {
      isCollapsed := !isCollapsed;
    }

    /** Overwrites the flag whatever it was. */
    method SetCollapsed(value: bool)
      modifies this
      ensures isCollapsed == value
    {
      isCollapsed := value;
    }
  }

  /** Toggling twice restores the flag, from either starting value. */
  method ToggleTwice(start: bool) returns (once: bool, twice: bool)
    ensures once == !start
    ensures twice == start
  {
    var sidebar := new SidebarState();
    sidebar.SetCollapsed(start);
    sidebar.Toggle();
    once := sidebar.isCollapsed;
    sidebar.Toggle();
    twice := sidebar.isCollapsed;
  }

  /** Setting the same value twice is the same as setting it once, from either starting value. */
  method SetCollapsedTwice(start: bool, value: bool) returns (once: bool, twice: bool)
    ensures once == value && twice == value
  {
    var sidebar := new SidebarState();
    sidebar.SetCollapsed(start);
    sidebar.SetCollapsed(value);
    once := sidebar.isCollapsed;
    sidebar.SetCollapsed(value);
    twice := sidebar.isCollapsed;
  }
}
