/** The fixture data the pages start from, and its three lookup helpers
    (src/data/mockData.ts). Instants are whole milliseconds counted from
    2023-03-01T00:00 local time (`At`). Avatars of users are not modelled. */
module MockData {
  import opened Common
  import opened Types

  /** Milliseconds from 2023-03-01T00:00 to day `day` (0 = 1 March) at
      hour:minute. */
  function At(day: nat, hour: nat, minute: nat): int {
    ((day * 24 + hour) * 60 + minute) * 60000
  }

  const April7 := 37
  const April1 := 31

  function User1(): User {
    User("1", "Ahmed Ali", "ahmed@orderflow.com", "admin", None, None)
  }
  function User2(): User {
    User("2", "Sara Mohammed", "sara@orderflow.com", "admin", Some(["Electronics"]), None)
  }
  function User3(): User {
    User("3", "Mohammed Hassan", "mohammed@orderflow.com", "employee", Some(["Clothing"]), None)
  }
  function User4(): User {
    User("4", "Fatima Abdullah", "fatima@orderflow.com", "employee", Some(["Electronics"]), None)
  }
  function User5(): User {
    User("5", "Omar Khalid", "omar@orderflow.com", "developer", None, None)
  }

  function MockUsers(): seq<User> {
    [User1(), User2(), User3(), User4(), User5()]
  }

  function Stats(average: int, completed: int, late: int, delay: int, d1: int, d2: int, d3: int): TaskStats {
    TaskStats(average, completed, late, delay, map["2024-04-01" := d1, "2024-04-02" := d2, "2024-04-03" := d3])
  }

  function Avatar(seed: string): Option<string> {
    Some("https://api.dicebear.com/7.x/avataaars/svg?seed=" + seed)
  }

  function Staff2(): StaffMember {
    StaffMember("2", "Sara Mohammed", "sara@orderflow.com", "admin", ["Electronics"], None,
      "Department Manager", "08:00", "16:00", Some(List(["Friday"])), None,
      Some(Stats(45, 120, 5, 240, 60, 90, 90)), Avatar("Sara"))
  }
  function Staff3(): StaffMember {
    StaffMember("3", "Mohammed Hassan", "mohammed@orderflow.com", "employee", ["Clothing"], None,
      "Senior Team Member", "09:00", "17:00", Some(List(["Saturday"])), None,
      Some(Stats(38, 150, 12, 320, 80, 120, 120)), Avatar("Mohammed"))
  }
  function Staff4(): StaffMember {
    StaffMember("4", "Fatima Abdullah", "fatima@orderflow.com", "employee", ["Electronics"], None,
      "Team Member", "10:00", "18:00", Some(List(["Thursday"])), None,
      Some(Stats(42, 95, 8, 180, 45, 75, 60)), Avatar("Fatima"))
  }
  function Staff6(): StaffMember {
    StaffMember("6", "Khalid Saeed", "khalid@orderflow.com", "employee", ["Home Goods"], None,
      "Team Member", "08:00", "16:00", Some(List(["Sunday"])), None,
      Some(Stats(50, 85, 10, 240, 90, 60, 90)), Avatar("Khalid"))
  }

  function MockStaffMembers(): seq<StaffMember> {
    [Staff2(), Staff3(), Staff4(), Staff6()]
  }

  function Order1(): Order {
    Order("ord1", "ORD-2023-001", "CUST-001", "Layla Mahmoud", "Electronics", At(April7, 10, 30),
      Some(User4()), Pending,
      [Item("item1", "Smartphone", 1, 3999), Item("item2", "Screen Protector", 2, 99)],
      Some("123 Riyadh St, Riyadh"), Some("Please gift wrap"), None, Some(30))
  }
  function Order2(): Order {
    Order("ord2", "ORD-2023-002", "CUST-002", "Youssef Ibrahim", "Clothing", At(April7, 11, 15),
      Some(User3()), InProgress,
      [Item("item3", "T-shirt", 3, 150), Item("item4", "Jeans", 1, 250)],
      Some("456 Jeddah Rd, Jeddah"), None,
      Some(Timeline(Some(At(April7, 11, 20)), Some(At(April7, 11, 30)), None)), Some(45))
  }
  function Order3(): Order {
    Order("ord3", "ORD-2023-003", "CUST-003", "Aisha Hamad", "Electronics", At(April7, 9, 45),
      Some(User4()), Completed,
      [Item("item5", "Laptop", 1, 5999), Item("item6", "Laptop Bag", 1, 350)],
      Some("789 Dammam Blvd, Dammam"), None,
      Some(Timeline(Some(At(April7, 9, 50)), Some(At(April7, 10, 0)), Some(At(April7, 10, 40)))), Some(60))
  }
  function Order4(): Order {
    Order("ord4", "ORD-2023-004", "CUST-004", "Tariq Nasser", "Home Goods", At(April7, 12, 30),
      None, Pending,
      [Item("item7", "Coffee Table", 1, 1200), Item("item8", "Floor Lamp", 2, 450)],
      Some("101 Madinah Ave, Madinah"), Some("Call before delivery"), None, Some(90))
  }
  function Order5(): Order {
    Order("ord5", "ORD-2023-005", "CUST-005", "Noor Abdullah", "Electronics", At(April7, 13, 15),
      Some(User4()), Cancelled,
      [Item("item9", "Bluetooth Speaker", 1, 599)],
      Some("202 Tabuk St, Tabuk"), None,
      Some(Timeline(Some(At(April7, 13, 20)), None, None)), Some(30))
  }

  function MockOrders(): seq<Order> {
    [Order1(), Order2(), Order3(), Order4(), Order5()]
  }

  function Knowledge1(): KnowledgeItem {
    KnowledgeItem("kb1", "Order Processing Guide",
      "This comprehensive guide covers the standard procedure for processing incoming orders...",
      Guide, None, "Procedures", "Ahmed Ali", At(14, 10, 0), None,
      Some([Attachment("att1", "Processing Diagram", ImageFile, "/placeholder.svg"),
            Attachment("att2", "Training Video", VideoFile, "/placeholder.svg")]))
  }
  function Knowledge2(): KnowledgeItem {
    KnowledgeItem("kb2", "Electronics Department Reference",
      "Reference guide for all electronics products including warranty information...",
      Instruction, Some("Electronics"), "Products", "Sara Mohammed", At(19, 14, 30), Some(At(April1, 9, 15)), None)
  }
  function Knowledge3(): KnowledgeItem {
    KnowledgeItem("kb3", "Clothing Department Sizing Guide",
      "Comprehensive sizing information for all clothing brands in our inventory...",
      Instruction, Some("Clothing"), "Products", "Mohammed Hassan", At(24, 11, 45), None, None)
  }
  function Knowledge4(): KnowledgeItem {
    KnowledgeItem("kb4", "Customer Service Policy",
      "Guidelines for handling customer inquiries, complaints, and returns...",
      Policy, None, "Customer Service", "Ahmed Ali", At(9, 8, 20), Some(At(29, 16, 0)), None)
  }
  function Knowledge5(): KnowledgeItem {
    KnowledgeItem("kb5", "Frequently Asked Questions",
      "Answers to common questions from customers regarding orders and shipping...",
      Faq, None, "Customer Service", "Sara Mohammed", At(17, 13, 10), None, None)
  }

  function MockKnowledgeItems(): seq<KnowledgeItem> {
    [Knowledge1(), Knowledge2(), Knowledge3(), Knowledge4(), Knowledge5()]
  }

  function Attendance1(): AttendanceRecord {
    AttendanceRecord("att1", "3", "2023-04-07", "09:02:34", Some("17:05:22"), Present, None)
  }
  function Attendance2(): AttendanceRecord {
    AttendanceRecord("att2", "4", "2023-04-07", "10:15:45", Some("18:00:12"), Late, Some("Traffic delay"))
  }
  function Attendance3(): AttendanceRecord {
    AttendanceRecord("att3", "2", "2023-04-07", "07:55:30", Some("16:10:05"), Present, None)
  }
  function Attendance4(): AttendanceRecord {
    AttendanceRecord("att4", "3", "2023-04-06", "09:00:12", Some("17:02:45"), Present, None)
  }
  function Attendance5(): AttendanceRecord {
    AttendanceRecord("att5", "4", "2023-04-06", "10:05:39", Some("18:00:00"), Present, None)
  }

  function MockAttendanceRecords(): seq<AttendanceRecord> {
    [Attendance1(), Attendance2(), Attendance3(), Attendance4(), Attendance5()]
  }

  function MockApiIntegrations(): seq<ApiIntegration> {
    [ ApiIntegration("api1", "Salla Platform", "https://api.salla.dev/admin/v2/orders", OAuth, Active, Some(At(April7, 14, 30))),
      ApiIntegration("api2", "Shipping Provider", "https://api.shipping-provider.com/v1", ApiKey, Active, Some(At(April7, 13, 15))),
      ApiIntegration("api3", "Inventory System", "https://inventory.example.com/api", Basic, Inactive, None) ]
  }

  /** The signed-in user of the demonstration: always the first user, an
      administrator without sections. */
  function GetCurrentUser(): (u: Option<User>)
    ensures u.Some? && u.value.id == "1" && u.value.role == "admin" && u.value.sections.None?
  {
    Some(MockUsers()[0])
  }

  predicate AssignedTo(o: Order, userId: string) {
    o.assignedStaff.Some? && o.assignedStaff.value.id == userId
  }

  /** The orders of `orders` assigned to `userId`, in their order. */
  function StaffOrders(orders: seq<Order>, userId: string): seq<Order> {
    Filter(orders, o => AssignedTo(o, userId))
  }

  /** `getStaffOrders` on the fixture orders. */
  function GetStaffOrders(userId: string): seq<Order> {
    StaffOrders(MockOrders(), userId)
  }

  /** The records of `records` belonging to `userId`, in their order. */
  function StaffAttendance(records: seq<AttendanceRecord>, userId: string): seq<AttendanceRecord> {
    Filter(records, (r: AttendanceRecord) => r.userId == userId)
  }

  function GetStaffAttendance(userId: string): seq<AttendanceRecord> {
    StaffAttendance(MockAttendanceRecords(), userId)
  }

  /** A staff member's orders are exactly the orders assigned to them, in the
      original order; an unassigned order is nobody's. */
  lemma StaffOrdersSpec(orders: seq<Order>, userId: string)
    ensures IsSubseq(StaffOrders(orders, userId), orders)
    ensures forall o :: o in StaffOrders(orders, userId) ==> o in orders && AssignedTo(o, userId)
    ensures forall o :: o in orders && AssignedTo(o, userId) ==> o in StaffOrders(orders, userId)
    ensures forall o :: o in orders && o.assignedStaff.None? ==> o !in StaffOrders(orders, userId)
  {
    FilterSpec(orders, o => AssignedTo(o, userId));
  }

  /** Orders split over staff members never overlap. */
  lemma StaffOrdersDisjoint(orders: seq<Order>, a: string, b: string)
    requires a != b
    ensures forall o :: o in StaffOrders(orders, a) ==> o !in StaffOrders(orders, b)
  {
    StaffOrdersSpec(orders, a);
    StaffOrdersSpec(orders, b);
  }

  lemma StaffAttendanceSpec(records: seq<AttendanceRecord>, userId: string)
    ensures IsSubseq(StaffAttendance(records, userId), records)
    ensures forall r :: r in StaffAttendance(records, userId) ==> r in records && r.userId == userId
    ensures forall r :: r in records && r.userId == userId ==> r in StaffAttendance(records, userId)
  {
    FilterSpec(records, (r: AttendanceRecord) => r.userId == userId);
  }

  /** On the fixtures: the employee with id 4 has the first, third and fifth
      order; the employee with id 3 has the second; the unassigned fourth
      order belongs to nobody. */
  lemma FixtureStaffOrders(userId: string)
    ensures GetStaffOrders("4") == [Order1(), Order3(), Order5()]
    ensures GetStaffOrders("3") == [Order2()]
    ensures Order4() !in GetStaffOrders(userId)
  {
    StaffOrdersSpec(MockOrders(), userId);
    FixtureOrdersOf4();
    FixtureOrdersOf3();
  }

  /** Who each fixture order is assigned to. */
  lemma OrdersAssignment()
    ensures |MockOrders()| == 5
    ensures MockOrders()[0] == Order1() && MockOrders()[1] == Order2() && MockOrders()[2] == Order3()
    ensures MockOrders()[3] == Order4() && MockOrders()[4] == Order5()
    ensures Order1().assignedStaff == Some(User4()) && Order3().assignedStaff == Some(User4())
    ensures Order5().assignedStaff == Some(User4()) && Order2().assignedStaff == Some(User3())
    ensures Order4().assignedStaff.None? && User4().id == "4" && User3().id == "3"
  {
  }

  lemma FixtureOrdersOf4()
    ensures GetStaffOrders("4") == [Order1(), Order3(), Order5()]
  {
    OrdersAssignment();
    FilterSelect(MockOrders(), [true, false, true, false, true], o => AssignedTo(o, "4"));
  }

  lemma FixtureOrdersOf3()
    ensures GetStaffOrders("3") == [Order2()]
  {
    OrdersAssignment();
    FilterSelect(MockOrders(), [false, true, false, false, false], o => AssignedTo(o, "3"));
  }

  /** On the fixtures: the attendance of employees 3, 4 and 2. */
  lemma FixtureStaffAttendance()
    ensures GetStaffAttendance("3") == [Attendance1(), Attendance4()]
    ensures GetStaffAttendance("4") == [Attendance2(), Attendance5()]
    ensures GetStaffAttendance("2") == [Attendance3()]
  {
    FixtureAttendanceOf3();
    FixtureAttendanceOf4();
    FixtureAttendanceOf2();
  }

  lemma FixtureAttendanceOf3()
    ensures GetStaffAttendance("3") == [Attendance1(), Attendance4()]
  {
    var keep := [true, false, false, true, false];
    assert forall i :: 0 <= i < 5 ==> (MockAttendanceRecords()[i].userId == "3") == keep[i];
    FilterSelect(MockAttendanceRecords(), keep, (r: AttendanceRecord) => r.userId == "3");
  }

  lemma FixtureAttendanceOf4()
    ensures GetStaffAttendance("4") == [Attendance2(), Attendance5()]
  {
    var keep := [false, true, false, false, true];
    assert forall i :: 0 <= i < 5 ==> (MockAttendanceRecords()[i].userId == "4") == keep[i];
    FilterSelect(MockAttendanceRecords(), keep, (r: AttendanceRecord) => r.userId == "4");
  }

  lemma FixtureAttendanceOf2()
    ensures GetStaffAttendance("2") == [Attendance3()]
  {
    var keep := [false, false, true, false, false];
    assert forall i :: 0 <= i < 5 ==> (MockAttendanceRecords()[i].userId == "2") == keep[i];
    FilterSelect(MockAttendanceRecords(), keep, (r: AttendanceRecord) => r.userId == "2");
  }
}
