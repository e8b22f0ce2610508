/** The admin sidebar: menu groups whose item lists can be folded, items
    whose child links can be expanded, a collapsed (icon-only) mode, and
    the two expansion lists written through to the session store so that a
    reload comes back with the same menu open. */
module Sidebar {
  import opened Wrappers
  import opened Lists

  datatype Child = Child(id: string, caption: string, href: string)

  /** A menu entry: a link when it has no children, otherwise a parent
      whose children are listed under it (or in a flyout when collapsed). */
  datatype MenuItem = MenuItem(id: string, caption: string, href: Option<string>, children: seq<Child>)

  datatype MenuGroup = MenuGroup(title: string, items: seq<MenuItem>)

  function Link(id: string, caption: string, href: string): MenuItem {
    MenuItem(id, caption, Some(href), [])
  }

  /** The region chart entry, listed under two groups with the same id. */
  const RegionChart: MenuItem := MenuItem("region-chart", "Biểu đồ vùng", Some("/region-chart"), [
    Child("region-dist", "Phân bố vùng", "/region-distribution"),
    Child("area-dist", "Phân bố khu vực", "/area-distribution"),
    Child("plot-dist", "Phân bố lô", "/plot-distribution"),
    Child("map-view", "Bản đồ", "/map-view")
  ])

  /** The menu the sidebar renders. */
  const Menu: seq<MenuGroup> := [
    MenuGroup("Tổng quan", [Link("dashboard", "Dashboard", "/")]),
    MenuGroup("Danh mục cơ bản", [
      Link("terrain", "Danh mục địa hình", "/terrain"),
      Link("land", "Danh mục đất", "/land"),
      Link("farming-method", "Phương thức canh tác", "/farming-method"),
      Link("certificate", "Danh mục tiêu chuẩn", "/certificate"),
      Link("bank-directory", "Danh mục ngân hàng", "/bank-directory"),
      Link("enterprise-type", "Danh mục loại hình doanh nghiệp", "/enterprise-type"),
      Link("material-group", "Phân loại vật tư", "/material-group"),
      Link("product-ingredient", "Định danh chi tiết", "/product-ingredient")
    ]),
    MenuGroup("Tổ chức", [
      RegionChart,
      MenuItem("unit", "Đơn vị", Some("/unit"), [
        Child("enterprise", "Doanh nghiệp", "/enterprise"),
        Child("farmer", "Nông hộ", "/farmer"),
        Child("cooperative", "Hợp tác xã", "/cooperative")
      ]),
      Link("branch", "Chi nhánh", "/branch"),
      Link("bank", "Thông tin ngân hàng", "/bank"),
      Link("contact", "Thông tin liên hệ", "/contact"),
      Link("enterprise-certificate", "Danh mục chứng nhận", "/enterprise-certificate")
    ]),
    MenuGroup("Tổ chức & Nhân sự", [
      Link("personnel", "Nhân sự", "/personnel"),
      Link("department", "Phòng ban", "/department"),
      Link("position", "Vị trí", "/position"),
      Link("team", "Đội nhóm", "/team")
    ]),
    MenuGroup("Vùng trồng", [
      RegionChart,
      MenuItem("cultivation-zone", "Vùng canh tác", Some("/cultivation-zone"), [
        Child("cultivation-area", "Khu vực canh tác", "/cultivation-area"),
        Child("dist-detail", "Chi tiết phân bổ", "/distribution-detail"),
        Child("search-crop", "Tìm kiếm cây trồng", "/search-crop"),
        Child("search-zone", "Tìm kiếm vùng trồng", "/search-zone")
      ])
    ]),
    MenuGroup("Cây trồng", [
      Link("crop", "Cây trồng", "/crop"),
      Link("variety", "Giống cây trồng", "/variety"),
      Link("group-crop", "Nhóm cây trồng", "/group-crop"),
      Link("seed", "Hạt giống", "/seed"),
      Link("growth-cycle", "Chu kỳ sinh trưởng", "/growth-cycle"),
      Link("season", "Mùa vụ", "/season"),
      Link("docs", "Tài liệu kỹ thuật", "/docs"),
      Link("treatment", "Phác đồ điều trị", "/treatment")
    ]),
    MenuGroup("Vật tư", [
      Link("pesticide", "Thuốc BVTV", "/pesticide"),
      Link("fertilizer", "Phân bón", "/fertilizer"),
      Link("material", "Vật tư khác", "/material"),
      Link("equipment", "Dụng cụ – Máy móc", "/equipment"),
      Link("unit", "Đơn vị quy đổi", "/unit")
    ]),
    MenuGroup("Quản lý hoạt động", [
      Link("contract", "Hợp đồng", "/contract"),
      Link("plan", "Kế hoạch canh tác", "/plan"),
      Link("task", "Công việc", "/task")
    ])
  ]

  /** The session-store keys of the two expansion lists. */
  const GroupsKey: string := "sidebar_expanded_groups"
  const ItemsKey: string := "sidebar_expanded_items"

  /** The group titles in declaration order. */
  function Titles(groups: seq<MenuGroup>): (titles: seq<string>)
    ensures |titles| == |groups|
    ensures forall k :: 0 <= k < |groups| ==> titles[k] == groups[k].title
  {
    seq(|groups|, k requires 0 <= k < |groups| => groups[k].title)
  }

  /** The expanded groups a sidebar starts with: the saved list, or every
      group when nothing is saved. */
  function InitialGroups(saved: map<string, seq<string>>, groups: seq<MenuGroup>): (r: seq<string>)
    ensures GroupsKey in saved ==> r == saved[GroupsKey]
    ensures GroupsKey !in saved ==> |r| == |groups| && forall k :: 0 <= k < |groups| ==> r[k] == groups[k].title
  {
    if GroupsKey in saved then saved[GroupsKey] else Titles(groups)
  }

  /** The expanded items a sidebar starts with: the saved list, or none. */
  function InitialItems(saved: map<string, seq<string>>): (r: seq<string>)
    ensures ItemsKey in saved ==> r == saved[ItemsKey]
    ensures ItemsKey !in saved ==> r == []
  {
    if ItemsKey in saved then saved[ItemsKey] else []
  }

  predicate HasChildren(item: MenuItem) {
    |item.children| > 0
  }

  /** A group's items are listed when the sidebar is collapsed (icons only,
      no group header) or when the group is expanded. */
  predicate ItemsListed(collapsed: bool, expandedGroups: seq<string>, group: MenuGroup)
    ensures !collapsed && group.title !in expandedGroups ==> !ItemsListed(collapsed, expandedGroups, group)
  {
    collapsed || group.title in expandedGroups
  }

  /** A parent's children are listed under it only in the wide sidebar and
      only when the parent is expanded. */
  predicate ChildrenInline(collapsed: bool, expandedItems: seq<string>, item: MenuItem)
    ensures ChildrenInline(collapsed, expandedItems, item) ==> !ChildrenInFlyout(collapsed, item)
  {
    HasChildren(item) && !collapsed && item.id in expandedItems
  }

  /** In the collapsed sidebar a parent shows its children in a hover
      flyout instead. */
  predicate ChildrenInFlyout(collapsed: bool, item: MenuItem) {
    HasChildren(item) && collapsed
  }

  /** An entry is highlighted when the location is its own link or one of
      its children's links. */
  predicate IsActive(item: MenuItem, location: string)
    ensures item.href.None? && item.children == [] ==> !IsActive(item, location)
  {
    item.href == Some(location) || exists c :: c in item.children && c.href == location
  }

  /** Following a child's link highlights its parent. */
  lemma ChildLinkActivatesParent(item: MenuItem, k: nat)
    requires k < |item.children|
    ensures IsActive(item, item.children[k].href)
  {
  }

  /** Expansion is kept by id, so parents that share an id open and close
      together. The menu data has such a pair: the region chart under
      "Tổ chức" and under "Vùng trồng" (the first two clauses). The third
      clause holds by the definition of `ChildrenInline`, which reads only
      the id; it is stated to name the consequence for that pair. */
  lemma SharedIdExpandsTogether(collapsed: bool, expandedItems: seq<string>)
    ensures Menu[2].items[0] == RegionChart && Menu[4].items[0] == RegionChart
    ensures Menu[2].title != Menu[4].title
    ensures forall a: MenuItem, b: MenuItem :: a.id == b.id && HasChildren(a) && HasChildren(b) ==>
              (ChildrenInline(collapsed, expandedItems, a) <==> ChildrenInline(collapsed, expandedItems, b))
  {
  }

  /** The browser's session store, holding each list under its key (the
      JSON text it stores in the browser is read back as the same list). */
  class SessionStore {
    var data: map<string, seq<string>>

    constructor (saved: map<string, seq<string>>)
      ensures data == saved
    {
      data := saved;
    }

    /** `sessionStorage.setItem(key, JSON.stringify(value))`. */
    method SetItem(key: string, value: seq<string>)
      modifies this
      ensures data == old(data)[key := value]
    {
      data := data[key := value];
    }
  }

  class AdminSidebar {
    const groups: seq<MenuGroup>
    const store: SessionStore
    var expandedGroups: seq<string>
    var expandedItems: seq<string>
    var collapsed: bool
    var location: string

    /** The store holds the current lists under their keys. */
    ghost predicate Valid()
      reads this, store
    {
      GroupsKey in store.data && store.data[GroupsKey] == expandedGroups &&
      ItemsKey in store.data && store.data[ItemsKey] == expandedItems
    }

    /** Mounting: both lists come from the store when saved there, and are
      then written back to it. */
    constructor (groups: seq<MenuGroup>, store: SessionStore, collapsed: bool, location: string)
      modifies store
      ensures Valid()
      ensures this.groups == groups && this.store == store
      ensures this.collapsed == collapsed && this.location == location
      ensures expandedGroups == InitialGroups(old(store.data), groups)
      ensures expandedItems == InitialItems(old(store.data))
      ensures store.data == old(store.data)[GroupsKey := expandedGroups][ItemsKey := expandedItems]
    {
      this.groups := groups;
      this.store := store;
      this.collapsed := collapsed;
      this.location := location;
      var saved := store.data;
      expandedGroups := if GroupsKey in saved then saved[GroupsKey] else Titles(groups);
      expandedItems := if ItemsKey in saved then saved[ItemsKey] else [];
      new;
      store.SetItem(GroupsKey, expandedGroups);
      store.SetItem(ItemsKey, expandedItems);
    }

    /** A group header, shown only in the wide sidebar: toggles the group. */
    method ClickGroupHeader(title: string)
      requires Valid()
      modifies this, store
      ensures Valid()
      ensures !collapsed ==> expandedGroups == Toggle(old(expandedGroups), title)
      ensures collapsed ==> expandedGroups == old(expandedGroups)
      ensures expandedItems == old(expandedItems)
      ensures collapsed == old(collapsed) && location == old(location)
      ensures forall k :: k != GroupsKey ==> (k in store.data <==> k in old(store.data))
      ensures forall k :: k != GroupsKey && k in store.data ==> store.data[k] == old(store.data)[k]
    {
      if !collapsed {
        expandedGroups := Toggle(expandedGroups, title);
        store.SetItem(GroupsKey, expandedGroups);
      }
    }

    /** A parent entry: toggles its children, except in the collapsed
      sidebar, where the click does nothing. */
    method ClickParent(id: string)
      requires Valid()
      modifies this, store
      ensures Valid()
      ensures !collapsed ==> expandedItems == Toggle(old(expandedItems), id)
      ensures collapsed ==> expandedItems == old(expandedItems)
      ensures expandedGroups == old(expandedGroups)
      ensures collapsed == old(collapsed) && location == old(location)
      ensures forall k :: k != ItemsKey ==> (k in store.data <==> k in old(store.data))
      ensures forall k :: k != ItemsKey && k in store.data ==> store.data[k] == old(store.data)[k]
    {
      if !collapsed {
        expandedItems := Toggle(expandedItems, id);
        store.SetItem(ItemsKey, expandedItems);
      }
    }

    /** The layout's collapse button, which sets the `collapsed` prop. */
    method SetCollapsed(c: bool)
      requires Valid()
      modifies this
      ensures Valid()
      ensures collapsed == c
      ensures expandedGroups == old(expandedGroups) && expandedItems == old(expandedItems)
      ensures location == old(location)
    {
      collapsed := c;
    }

    /** Following a link: the router's location becomes its href. */
    method FollowLink(href: string)
      requires Valid()
      modifies this
      ensures Valid()
      ensures location == href
      ensures expandedGroups == old(expandedGroups) && expandedItems == old(expandedItems)
      ensures collapsed == old(collapsed)
    {
      location := href;
    }
  }

  /** A reload mounts a new sidebar on the same store, and it comes back
      with the lists the old one had. */
  method Reload(s: AdminSidebar) returns (t: AdminSidebar)
    requires s.Valid()
    modifies s.store
    ensures t.expandedGroups == s.expandedGroups && t.expandedItems == s.expandedItems
    ensures t.Valid() && t.store == s.store
  {
    t := new AdminSidebar(s.groups, s.store, s.collapsed, s.location);
  }

  /** On first mount, with nothing saved, every group is open and no
      parent is. */
  method FirstMount() returns (s: AdminSidebar)
    ensures s.Valid()
    ensures s.expandedGroups == Titles(Menu)
    ensures s.expandedItems == []
    ensures forall g :: g in Menu ==> ItemsListed(s.collapsed, s.expandedGroups, g)
  {
    var store := new SessionStore(map[]);
    s := new AdminSidebar(Menu, store, false, "/");
  }
}
