/** The records of the dashboard (src/types/index.ts). Timestamps, which the
    application keeps as ISO-8601 strings, are integers here (milliseconds);
    optional properties are `Option`s. Roles are strings because the
    components disagree on their names ("employee", "team", "manager"). */
module Types {
  import opened Common

  datatype OrderStatus = Pending | InProgress | Completed | Cancelled

  /** The string the application stores for a status. */
  function StatusName(s: OrderStatus): string {
    match s
    case Pending => "pending"
    case InProgress => "in_progress"
    case Completed => "completed"
    case Cancelled => "cancelled"
  }

  datatype User = User(
    id: string,
    name: string,
    email: string,
    role: string,
    sections: Option<seq<string>>,
    /** Not declared on `User`, but read by the team task list. */
    department: Option<string>)

  datatype Item = Item(id: string, name: string, quantity: int, price: int)

  datatype Timeline = Timeline(assignedAt: Option<int>, startedAt: Option<int>, completedAt: Option<int>)

  const EmptyTimeline := Timeline(None, None, None)

  datatype Order = Order(
    id: string,
    orderId: string,
    customerId: string,
    customerName: string,
    department: string,
    orderDate: int,
    assignedStaff: Option<User>,
    status: OrderStatus,
    items: seq<Item>,
    shippingAddress: Option<string>,
    notes: Option<string>,
    timeline: Option<Timeline>,
    expectedCompletionTime: Option<int>)

  /** A property that holds either one string or a list of strings (the
      department and the days off of a staff member are both read this way). */
  datatype TextOrList = Text(text: string) | List(parts: seq<string>)

  datatype TaskStats = TaskStats(
    averageTime: int,
    tasksCompleted: int,
    lateCompletions: int,
    totalDelayMinutes: int,
    delaysByDay: map<string, int>)

  datatype StaffMember = StaffMember(
    id: string,
    name: string,
    email: string,
    role: string,
    sections: seq<string>,
    department: Option<TextOrList>,
    position: string,
    shiftStart: string,
    shiftEnd: string,
    daysOff: Option<TextOrList>,
    allowedCompletionTime: Option<int>,
    taskCompletionStats: Option<TaskStats>,
    avatar: Option<string>)

  datatype KnowledgeType = Guide | Instruction | Policy | Faq

  datatype AttachmentKind = ImageFile | VideoFile | DocumentFile

  datatype Attachment = Attachment(id: string, name: string, kind: AttachmentKind, url: string)

  datatype KnowledgeItem = KnowledgeItem(
    id: string,
    title: string,
    content: string,
    kind: KnowledgeType,
    department: Option<string>,
    category: string,
    createdBy: string,
    createdAt: int,
    updatedAt: Option<int>,
    attachments: Option<seq<Attachment>>)

  datatype AttendanceStatus = Present | Absent | Late

  datatype AttendanceRecord = AttendanceRecord(
    id: string,
    userId: string,
    date: string,
    clockIn: string,
    clockOut: Option<string>,
    status: AttendanceStatus,
    notes: Option<string>)

  datatype NoteAttachmentKind = ImageNote | TextNote

  datatype NoteAttachment = NoteAttachment(id: string, url: string, kind: NoteAttachmentKind)

  datatype TaskNote = TaskNote(
    id: string,
    content: string,
    createdAt: int,
    createdBy: string,
    attachments: Option<seq<NoteAttachment>>)

  datatype AuthType = ApiKey | OAuth | Basic

  datatype IntegrationStatus = Active | Inactive

  datatype ApiIntegration = ApiIntegration(
    id: string,
    name: string,
    endpoint: string,
    authType: AuthType,
    status: IntegrationStatus,
    lastSynced: Option<int>)

  datatype DelayReport = DelayReport(
    orderId: string,
    userId: string,
    userName: string,
    orderDate: int,
    completionDate: Option<int>,
    allowedTime: int,
    actualTime: Option<int>,
    delayTime: Option<int>,
    status: OrderStatus)

  /** A browser `File`: only its name and MIME type matter here. */
  datatype File = File(name: string, mimeType: string)

  datatype GuideLink = GuideLink(title: string, url: string)

  /** The guide a guide dialog hands to its owner (`GuidePage` is imported
      from the types module but not declared there; these are the fields the
      dialog fills in). */
  datatype GuidePage = GuidePage(
    id: string,
    title: string,
    content: string,
    createdBy: string,
    createdAt: int,
    images: seq<string>,
    videoUrls: seq<string>,
    externalLinks: seq<GuideLink>)
}
