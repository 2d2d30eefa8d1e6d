/**
  The inventory of the program: 24 tables in foreign-key-safe order with their allow-lists, the
  conflict column of each upsert, the columns its DO UPDATE leaves alone, the further UNIQUE
  columns, the columns its DO UPDATE assigns without the table having them, the columns without NOT
  NULL, the JSONB and the array columns, and the foreign keys the migrations declare.
 */
module BackupInventory {
  import opened Prelude
  import opened Json
  import opened Store

  const USERS := Spec("users", "id", [
    "id", "email", "password_hash", "first_name", "last_name", "role", "status",
    "totp_secret_encrypted", "totp_enabled", "last_login_at", "created_at", "updated_at",
    "totp_last_used_step", "token_version", "must_change_password"],
    [], "id", {"id"}, {"email"}, {},
    {"totp_secret_encrypted", "last_login_at"},
    {}, {})

  const COMPANIES := Spec("companies", "id", [
    "id", "name", "domain", "phone", "email", "address_street", "address_zip", "address_city",
    "address_country", "custom_fields", "created_at", "updated_at", "owner_user_id"],
    [], "id", {"id"}, {}, {},
    {"domain", "phone", "email", "address_street", "address_zip", "address_city",
     "address_country", "owner_user_id"},
    {"custom_fields"}, {})

  const WORKFLOWS := Spec("workflows", "id", [
    "id", "name", "description", "trigger_type", "target_type", "is_active", "steps_json",
    "created_at", "updated_at"],
    [], "id", {"id"}, {}, {},
    {},
    {"steps_json"}, {})

  const CONTACTS := Spec("contacts", "id", [
    "id", "company_id", "first_name", "last_name", "email", "phone", "mobile", "position",
    "lead_source", "address_street", "address_zip", "address_city", "latitude", "longitude",
    "custom_fields", "created_at", "updated_at", "consent_phone", "consent_email",
    "consent_updated_at", "stromverbrauch_kwh", "gasverbrauch_kwh", "zaehlernummer",
    "eigentuemer_status", "tags", "owner_user_id"],
    [], "id", {"id"}, {}, {},
    {"company_id", "email", "phone", "mobile", "position", "lead_source", "address_street",
     "address_zip", "address_city", "latitude", "longitude", "consent_updated_at",
     "stromverbrauch_kwh", "gasverbrauch_kwh", "zaehlernummer", "eigentuemer_status",
     "owner_user_id"},
    {"custom_fields", "tags"}, {})

  const DEALS := Spec("deals", "id", [
    "id", "title", "company_id", "contact_id", "value", "currency", "stage", "probability",
    "assigned_to", "closed_at", "custom_fields", "created_at", "updated_at", "widerrufen_at",
    "widerruf_grund", "tags"],
    [], "id", {"id"}, {}, {},
    {"company_id", "contact_id", "assigned_to", "closed_at", "widerrufen_at", "widerruf_grund"},
    {"custom_fields", "tags"}, {})

  const EMAIL_ACCOUNTS := Spec("email_accounts", "id", [
    "id", "name", "email_address", "provider", "imap_host", "imap_port", "smtp_host",
    "smtp_port", "username", "password_encrypted", "is_active", "last_synced_at", "created_at",
    "updated_at", "account_type", "owner_user_id", "last_sync_at", "last_uid"],
    [], "id", {"id"}, {"email_address"}, {},
    {"imap_host", "imap_port", "smtp_host", "smtp_port", "username", "password_encrypted",
     "last_synced_at", "owner_user_id", "last_sync_at"},
    {}, {})

  const TODOS := Spec("todos", "id", [
    "id", "title", "description", "due_date", "status", "priority", "assigned_to", "contact_id",
    "deal_id", "created_at", "updated_at"],
    [], "id", {"id"}, {}, {},
    {"description", "due_date", "assigned_to", "contact_id", "deal_id"},
    {}, {})

  const REFRESH_TOKENS := Spec("refresh_tokens", "id", [
    "id", "user_id", "token_hash", "user_agent", "ip_address", "expires_at", "created_at",
    "family_id", "used_at"],
    [], "id", {"id"}, {"token_hash"}, {},
    {"user_agent", "ip_address", "used_at"},
    {}, {})

  const AUDIT_LOGS := Spec("audit_logs", "id", [
    "id", "user_id", "entity_type", "entity_id", "action", "changes", "ip_address",
    "user_agent", "created_at", "old_values", "new_values", "prev_hash", "hash"],
    [], "id", {"id"}, {}, {},
    {"user_id", "ip_address", "user_agent", "old_values", "new_values", "prev_hash", "hash"},
    {"changes", "old_values", "new_values"}, {})

  const NOTIFICATIONS := Spec("notifications", "id", [
    "id", "user_id", "type", "title", "message", "link", "is_read", "created_at"],
    [], "id", {"id"}, {}, {},
    {"user_id", "link"},
    {}, {})

  const EMAIL_MESSAGES := Spec("email_messages", "id", [
    "id", "account_id", "thread_id", "message_id", "in_reply_to", "direction", "sender_email",
    "sender_name", "recipient_emails", "subject", "body_text", "body_html", "received_at",
    "is_read", "contact_id", "deal_id", "created_at", "tags", "is_draft"],
    [], "id", {"id"}, {"message_id"}, {},
    {"in_reply_to", "sender_name", "body_text", "body_html", "contact_id", "deal_id"},
    {"recipient_emails", "tags"}, {})

  const EMAIL_ATTACHMENTS := Spec("email_attachments", "id", [
    "id", "message_id", "filename", "content_type", "size_bytes", "storage_path", "created_at"],
    [], "id", {"id"}, {}, {},
    {},
    {}, {})

  const APPOINTMENTS := Spec("appointments", "id", [
    "id", "title", "contact_id", "company_id", "deal_id", "start_time", "end_time", "location",
    "notes", "ics_uid", "created_at", "assigned_to", "type", "is_external", "provider",
    "is_private", "is_pushed", "updated_at", "user_id"],
    [], "id", {"id"}, {}, {},
    {"contact_id", "company_id", "deal_id", "user_id"},
    {}, {})

  const CALL_ACTIVITIES := Spec("call_activities", "id", [
    "id", "contact_id", "duration_seconds", "disposition", "notes", "created_at"],
    [], "id", {"id"}, {}, {},
    {"contact_id"},
    {}, {})

  const COMPANY_RESEARCH := Spec("company_research", "id", [
    "id", "company_id", "domain", "title", "meta_description", "summary", "industry_keywords",
    "researched_at"],
    [], "id", {"id"}, {}, {},
    {"company_id"},
    {}, {"industry_keywords"})

  const WORKFLOW_RUNS := Spec("workflow_runs", "id", [
    "id", "workflow_id", "target_id", "target_type", "target_name", "status", "current_step",
    "snapshot_json", "started_at", "completed_at"],
    [], "id", {"id"}, {}, {},
    {"completed_at"},
    {"snapshot_json"}, {})

  const WORKFLOW_STEPS := Spec("workflow_steps", "id", [
    "id", "run_id", "step_number", "title", "action_type", "payload_json", "status",
    "prepared_at", "executed_at"],
    [], "id", {"id"}, {}, {},
    {"executed_at"},
    {"payload_json"}, {})

  const NOTES := Spec("notes", "id", [
    "id", "entity_type", "entity_id", "type", "author", "content", "created_at", "updated_at",
    "user_id"],
    [], "id", {"id"}, {}, {},
    {"entity_id", "user_id"},
    {}, {})

  const INTAKE_FORMS := Spec("intake_forms", "id", [
    "id", "name", "slug", "fields_json", "is_active", "created_at"],
    [], "id", {"id"}, {"slug"}, {},
    {},
    {"fields_json"}, {})

  const USER_INVITES := Spec("user_invites", "id", [
    "id", "user_id", "token_hash", "created_by", "expires_at", "consumed_at", "revoked_at",
    "created_at"],
    [], "id", {"id", "created_at"}, {"token_hash"}, {},
    {"created_by", "consumed_at", "revoked_at"},
    {}, {})

  const EMAIL_TEMPLATES := Spec("email_templates", "id", [
    "id", "key", "name", "subject", "body", "category", "locale", "created_at", "updated_at"],
    [], "key", {"id", "key", "created_at"}, {"id"}, {},
    {},
    {}, {})

  const KNOWLEDGE_BASE_ARTICLES := Spec("knowledge_base_articles", "id", [
    "id", "title", "category", "content", "tags", "author", "created_at", "updated_at",
    "embedding", "embedding_model"],
    [], "id", {"id"}, {}, {},
    {"embedding", "embedding_model"},
    {}, {"tags"})

  const AI_RESEARCH_JOBS := Spec("ai_research_jobs", "id", [
    "id", "company_name", "domain", "status", "result_json", "error_message", "created_at",
    "completed_at"],
    [], "id", {"id"}, {}, {"updated_at"},
    {"completed_at"},
    {"result_json"}, {})

  const AI_AUDIT_LOGS := Spec("ai_audit_logs", "id", [
    "id", "interaction_type", "model_name", "provider", "prompt_tokens", "completion_tokens",
    "latency_ms", "pii_filter_triggered", "pii_redactions_count", "human_approved", "created_at"],
    ["user_id"], "id", {"id"}, {}, {},
    {"human_approved", "user_id"},
    {}, {})

  const SPECS: seq<Spec> := [
    USERS, COMPANIES, WORKFLOWS, CONTACTS, DEALS, EMAIL_ACCOUNTS, TODOS, REFRESH_TOKENS,
    AUDIT_LOGS, NOTIFICATIONS, EMAIL_MESSAGES, EMAIL_ATTACHMENTS, APPOINTMENTS, CALL_ACTIVITIES,
    COMPANY_RESEARCH, WORKFLOW_RUNS, WORKFLOW_STEPS, NOTES, INTAKE_FORMS, USER_INVITES,
    EMAIL_TEMPLATES, KNOWLEDGE_BASE_ARTICLES, AI_RESEARCH_JOBS, AI_AUDIT_LOGS
  ]

  // Every REFERENCES clause of the migrations; all of them point at the parent's id.

  const CUSTOMER_KEYS: seq<ForeignKey> := [
    ForeignKey("companies", "owner_user_id", "users"),
    ForeignKey("contacts", "company_id", "companies"),
    ForeignKey("contacts", "owner_user_id", "users")
  ]

  const DEAL_KEYS: seq<ForeignKey> := [
    ForeignKey("deals", "assigned_to", "users"),
    ForeignKey("deals", "company_id", "companies"),
    ForeignKey("deals", "contact_id", "contacts")
  ]

  const TODO_KEYS: seq<ForeignKey> := [
    ForeignKey("todos", "assigned_to", "users"),
    ForeignKey("todos", "contact_id", "contacts"),
    ForeignKey("todos", "deal_id", "deals")
  ]

  const ACCOUNT_KEYS: seq<ForeignKey> := [
    ForeignKey("email_accounts", "owner_user_id", "users"),
    ForeignKey("refresh_tokens", "user_id", "users")
  ]

  const LOG_KEYS: seq<ForeignKey> := [
    ForeignKey("audit_logs", "user_id", "users"),
    ForeignKey("ai_audit_logs", "user_id", "users")
  ]

  const MAIL_KEYS: seq<ForeignKey> := [
    ForeignKey("email_messages", "account_id", "email_accounts"),
    ForeignKey("email_messages", "contact_id", "contacts"),
    ForeignKey("email_messages", "deal_id", "deals")
  ]

  const ATTACHMENT_KEYS: seq<ForeignKey> := [
    ForeignKey("email_attachments", "message_id", "email_messages")
  ]

  const APPOINTMENT_KEYS: seq<ForeignKey> := [
    ForeignKey("appointments", "company_id", "companies"),
    ForeignKey("appointments", "contact_id", "contacts"),
    ForeignKey("appointments", "deal_id", "deals"),
    ForeignKey("appointments", "user_id", "users")
  ]

  const ACTIVITY_KEYS: seq<ForeignKey> := [
    ForeignKey("call_activities", "contact_id", "contacts"),
    ForeignKey("company_research", "company_id", "companies")
  ]

  const WORKFLOW_KEYS: seq<ForeignKey> := [
    ForeignKey("workflow_runs", "workflow_id", "workflows"),
    ForeignKey("workflow_steps", "run_id", "workflow_runs")
  ]

  const NOTE_KEYS: seq<ForeignKey> := [
    ForeignKey("notifications", "user_id", "users"),
    ForeignKey("notes", "user_id", "users")
  ]

  const INVITE_KEYS: seq<ForeignKey> := [
    ForeignKey("user_invites", "created_by", "users"),
    ForeignKey("user_invites", "user_id", "users")
  ]

  const FOREIGN_KEYS :=
    CUSTOMER_KEYS + DEAL_KEYS + TODO_KEYS + ACCOUNT_KEYS + LOG_KEYS + MAIL_KEYS +
    ATTACHMENT_KEYS + APPOINTMENT_KEYS + ACTIVITY_KEYS + WORKFLOW_KEYS + NOTE_KEYS + INVITE_KEYS

  const PROGRAM := Inventory(SPECS, FOREIGN_KEYS)

  lemma UsersOk(s: Spec)
    requires s == USERS
    ensures SpecOk(s)
  {
  }

  lemma CompaniesOk(s: Spec)
    requires s == COMPANIES
    ensures SpecOk(s)
  {
    CompaniesColumns();
    CompaniesKinds();
  }

  lemma CompaniesColumns()
    ensures ColumnsOk(COMPANIES)
  {
  }

  lemma CompaniesKinds()
    ensures KindsOk(COMPANIES)
  {
  }

  lemma WorkflowsOk(s: Spec)
    requires s == WORKFLOWS
    ensures SpecOk(s)
  {
  }

  lemma ContactsOk(s: Spec)
    requires s == CONTACTS
    ensures SpecOk(s)
  {
    ContactsColumns();
    ContactsKinds();
  }

  lemma ContactsKinds()
    ensures KindsOk(CONTACTS)
  {
  }

  lemma ContactsColumns()
    ensures ColumnsOk(CONTACTS)
  {
    ContactsDistinct();
  }

  lemma ContactsDistinct()
    ensures Distinct(Stored(CONTACTS))
  {
    var s := Stored(CONTACTS);
    ContactsHalf(0);
    ContactsHalf(13);
    ContactsAcross();
    assert forall i, j :: 0 <= i < j < |s| ==>
      (0 <= i < j < 13 || 13 <= i < j < 26 || (0 <= i < 13 && 13 <= j < 26)) && s[i] != s[j];
  }

  lemma ContactsHalf(from: nat)
    requires from == 0 || from == 13
    ensures forall i, j :: from <= i < j < from + 13 ==>
      Stored(CONTACTS)[i] != Stored(CONTACTS)[j]
  {
  }

  lemma ContactsAcross()
    ensures forall i, j :: 0 <= i < 13 && 13 <= j < 26 ==>
      Stored(CONTACTS)[i] != Stored(CONTACTS)[j]
  {
  }

  lemma DealsOk(s: Spec)
    requires s == DEALS
    ensures SpecOk(s)
  {
    DealsColumns();
    DealsKinds();
  }

  lemma DealsColumns()
    ensures ColumnsOk(DEALS)
  {
    DealsDistinct();
  }

  lemma DealsDistinct()
    ensures Distinct(Stored(DEALS))
  {
  }

  lemma DealsKinds()
    ensures KindsOk(DEALS)
  {
  }

  lemma EmailAccountsOk(s: Spec)
    requires s == EMAIL_ACCOUNTS
    ensures SpecOk(s)
  {
    EmailAccountsColumns();
    EmailAccountsKinds();
  }

  lemma EmailAccountsColumns()
    ensures ColumnsOk(EMAIL_ACCOUNTS)
  {
    EmailAccountsDistinct();
  }

  lemma EmailAccountsDistinct()
    ensures Distinct(Stored(EMAIL_ACCOUNTS))
  {
  }

  lemma EmailAccountsKinds()
    ensures KindsOk(EMAIL_ACCOUNTS)
  {
  }

  lemma TodosOk(s: Spec)
    requires s == TODOS
    ensures SpecOk(s)
  {
  }

  lemma RefreshTokensOk(s: Spec)
    requires s == REFRESH_TOKENS
    ensures SpecOk(s)
  {
  }

  lemma AuditLogsOk(s: Spec)
    requires s == AUDIT_LOGS
    ensures SpecOk(s)
  {
  }

  lemma NotificationsOk(s: Spec)
    requires s == NOTIFICATIONS
    ensures SpecOk(s)
  {
  }

  lemma EmailMessagesOk(s: Spec)
    requires s == EMAIL_MESSAGES
    ensures SpecOk(s)
  {
    EmailMessagesColumns();
    EmailMessagesKinds();
  }

  lemma EmailMessagesColumns()
    ensures ColumnsOk(EMAIL_MESSAGES)
  {
    EmailMessagesDistinct();
  }

  lemma EmailMessagesDistinct()
    ensures Distinct(Stored(EMAIL_MESSAGES))
  {
    var s := Stored(EMAIL_MESSAGES);
    EmailMessagesHalf(0);
    EmailMessagesHalf(10);
    EmailMessagesAcross();
    assert forall i, j :: 0 <= i < j < |s| ==>
      (0 <= i < j < 10 || 10 <= i < j < 20 || (0 <= i < 10 && 10 <= j < 20)) && s[i] != s[j];
  }

  lemma EmailMessagesHalf(from: nat)
    requires from == 0 || from == 10
    ensures forall i, j :: from <= i < j < from + 10 && j < 19 ==>
      Stored(EMAIL_MESSAGES)[i] != Stored(EMAIL_MESSAGES)[j]
  {
  }

  lemma EmailMessagesAcross()
    ensures forall i, j :: 0 <= i < 10 && 10 <= j < 19 ==>
      Stored(EMAIL_MESSAGES)[i] != Stored(EMAIL_MESSAGES)[j]
  {
  }

  lemma EmailMessagesKinds()
    ensures KindsOk(EMAIL_MESSAGES)
  {
  }

  lemma EmailAttachmentsOk(s: Spec)
    requires s == EMAIL_ATTACHMENTS
    ensures SpecOk(s)
  {
  }

  lemma AppointmentsOk(s: Spec)
    requires s == APPOINTMENTS
    ensures SpecOk(s)
  {
    AppointmentsColumns();
    AppointmentsKinds();
  }

  lemma AppointmentsColumns()
    ensures ColumnsOk(APPOINTMENTS)
  {
    AppointmentsDistinct();
  }

  lemma AppointmentsDistinct()
    ensures Distinct(Stored(APPOINTMENTS))
  {
  }

  lemma AppointmentsKinds()
    ensures KindsOk(APPOINTMENTS)
  {
  }

  lemma CallActivitiesOk(s: Spec)
    requires s == CALL_ACTIVITIES
    ensures SpecOk(s)
  {
  }

  lemma CompanyResearchOk(s: Spec)
    requires s == COMPANY_RESEARCH
    ensures SpecOk(s)
  {
  }

  lemma WorkflowRunsOk(s: Spec)
    requires s == WORKFLOW_RUNS
    ensures SpecOk(s)
  {
  }

  lemma WorkflowStepsOk(s: Spec)
    requires s == WORKFLOW_STEPS
    ensures SpecOk(s)
  {
  }

  lemma NotesOk(s: Spec)
    requires s == NOTES
    ensures SpecOk(s)
  {
  }

  lemma IntakeFormsOk(s: Spec)
    requires s == INTAKE_FORMS
    ensures SpecOk(s)
  {
  }

  lemma UserInvitesOk(s: Spec)
    requires s == USER_INVITES
    ensures SpecOk(s)
  {
  }

  lemma EmailTemplatesOk(s: Spec)
    requires s == EMAIL_TEMPLATES
    ensures SpecOk(s)
  {
  }

  lemma KnowledgeBaseArticlesOk(s: Spec)
    requires s == KNOWLEDGE_BASE_ARTICLES
    ensures SpecOk(s)
  {
  }

  lemma AiResearchJobsOk(s: Spec)
    requires s == AI_RESEARCH_JOBS
    ensures SpecOk(s)
  {
  }

  lemma AiAuditLogsOk(s: Spec)
    requires s == AI_AUDIT_LOGS
    ensures SpecOk(s)
  {
  }

  lemma NamesDifferIn(from: nat, to: nat)
    requires (from == 0 && to == 12) || (from == 12 && to == 24)
    ensures forall i, j :: from <= i < j < to ==> SPECS[i].name != SPECS[j].name
  {
  }

  lemma NamesDifferAcross()
    ensures forall i, j :: 0 <= i < 12 && 12 <= j < 24 ==> SPECS[i].name != SPECS[j].name
  {
  }

  lemma NamesDiffer()
    ensures DistinctTables(PROGRAM)
  {
    NamesDifferIn(0, 12);
    NamesDifferIn(12, 24);
    NamesDifferAcross();
  }

  /** Some registry positions witness that the key points back. */
  ghost predicate Placed(fk: ForeignKey) {
    exists i: nat, j: nat :: PointsBack(PROGRAM, fk, i, j)
  }

  /** workflows and ai_research_jobs refer to nothing, ai_audit_logs by its nullable user_id only. */
  predicate Loose(fk: ForeignKey) {
    && fk.child != "workflows" && fk.child != "ai_research_jobs"
    && (fk.child == "ai_audit_logs" ==> fk.column == "user_id")
  }

  lemma Place(fk: ForeignKey, i: nat, parent: Spec, j: nat, child: Spec, c: nat)
    requires i < j < |SPECS| && SPECS[i] == parent && SPECS[j] == child
    requires parent.name == fk.parent && parent.conflict == parent.pk
    requires child.name == fk.child && c < |Stored(child)| && Stored(child)[c] == fk.column
    ensures Placed(fk)
  {
    assert PointsBack(PROGRAM, fk, i, j);
  }

  lemma CustomerKeysPlaced()
    ensures forall fk :: fk in CUSTOMER_KEYS ==> Placed(fk)
  {
    Place(CUSTOMER_KEYS[0], 0, USERS, 1, COMPANIES, 12);
    Place(CUSTOMER_KEYS[1], 1, COMPANIES, 3, CONTACTS, 1);
    Place(CUSTOMER_KEYS[2], 0, USERS, 3, CONTACTS, 25);
  }

  lemma DealKeysPlaced()
    ensures forall fk :: fk in DEAL_KEYS ==> Placed(fk)
  {
    Place(DEAL_KEYS[0], 0, USERS, 4, DEALS, 8);
    Place(DEAL_KEYS[1], 1, COMPANIES, 4, DEALS, 2);
    Place(DEAL_KEYS[2], 3, CONTACTS, 4, DEALS, 3);
  }

  lemma TodoKeysPlaced()
    ensures forall fk :: fk in TODO_KEYS ==> Placed(fk)
  {
    Place(TODO_KEYS[0], 0, USERS, 6, TODOS, 6);
    Place(TODO_KEYS[1], 3, CONTACTS, 6, TODOS, 7);
    Place(TODO_KEYS[2], 4, DEALS, 6, TODOS, 8);
  }

  lemma AccountKeysPlaced()
    ensures forall fk :: fk in ACCOUNT_KEYS ==> Placed(fk)
  {
    Place(ACCOUNT_KEYS[0], 0, USERS, 5, EMAIL_ACCOUNTS, 15);
    Place(ACCOUNT_KEYS[1], 0, USERS, 7, REFRESH_TOKENS, 1);
  }

  lemma LogKeysPlaced()
    ensures forall fk :: fk in LOG_KEYS ==> Placed(fk)
  {
    Place(LOG_KEYS[0], 0, USERS, 8, AUDIT_LOGS, 1);
    Place(LOG_KEYS[1], 0, USERS, 23, AI_AUDIT_LOGS, 11);
  }

  lemma MailKeysPlaced()
    ensures forall fk :: fk in MAIL_KEYS ==> Placed(fk)
  {
    Place(MAIL_KEYS[0], 5, EMAIL_ACCOUNTS, 10, EMAIL_MESSAGES, 1);
    Place(MAIL_KEYS[1], 3, CONTACTS, 10, EMAIL_MESSAGES, 14);
    Place(MAIL_KEYS[2], 4, DEALS, 10, EMAIL_MESSAGES, 15);
  }

  lemma AttachmentKeysPlaced()
    ensures forall fk :: fk in ATTACHMENT_KEYS ==> Placed(fk)
  {
    Place(ATTACHMENT_KEYS[0], 10, EMAIL_MESSAGES, 11, EMAIL_ATTACHMENTS, 1);
  }

  lemma AppointmentKeysPlaced()
    ensures forall fk :: fk in APPOINTMENT_KEYS ==> Placed(fk)
  {
    Place(APPOINTMENT_KEYS[0], 1, COMPANIES, 12, APPOINTMENTS, 3);
    Place(APPOINTMENT_KEYS[1], 3, CONTACTS, 12, APPOINTMENTS, 2);
    Place(APPOINTMENT_KEYS[2], 4, DEALS, 12, APPOINTMENTS, 4);
    Place(APPOINTMENT_KEYS[3], 0, USERS, 12, APPOINTMENTS, 18);
  }

  lemma ActivityKeysPlaced()
    ensures forall fk :: fk in ACTIVITY_KEYS ==> Placed(fk)
  {
    Place(ACTIVITY_KEYS[0], 3, CONTACTS, 13, CALL_ACTIVITIES, 1);
    Place(ACTIVITY_KEYS[1], 1, COMPANIES, 14, COMPANY_RESEARCH, 1);
  }

  lemma WorkflowKeysPlaced()
    ensures forall fk :: fk in WORKFLOW_KEYS ==> Placed(fk)
  {
    Place(WORKFLOW_KEYS[0], 2, WORKFLOWS, 15, WORKFLOW_RUNS, 1);
    Place(WORKFLOW_KEYS[1], 15, WORKFLOW_RUNS, 16, WORKFLOW_STEPS, 1);
  }

  lemma NoteKeysPlaced()
    ensures forall fk :: fk in NOTE_KEYS ==> Placed(fk)
  {
    Place(NOTE_KEYS[0], 0, USERS, 9, NOTIFICATIONS, 1);
    Place(NOTE_KEYS[1], 0, USERS, 17, NOTES, 8);
  }

  lemma InviteKeysPlaced()
    ensures forall fk :: fk in INVITE_KEYS ==> Placed(fk)
  {
    Place(INVITE_KEYS[0], 0, USERS, 19, USER_INVITES, 3);
    Place(INVITE_KEYS[1], 0, USERS, 19, USER_INVITES, 1);
  }

  lemma KeysPointBack()
    ensures forall fk :: fk in FOREIGN_KEYS ==> Placed(fk)
  {
    CustomerKeysPlaced();
    DealKeysPlaced();
    TodoKeysPlaced();
    AccountKeysPlaced();
    LogKeysPlaced();
    MailKeysPlaced();
    AttachmentKeysPlaced();
    AppointmentKeysPlaced();
    ActivityKeysPlaced();
    WorkflowKeysPlaced();
    NoteKeysPlaced();
    InviteKeysPlaced();
  }

  lemma CustomerKeysLoose()
    ensures forall fk :: fk in CUSTOMER_KEYS ==> Loose(fk)
  {
  }

  lemma DealKeysLoose()
    ensures forall fk :: fk in DEAL_KEYS ==> Loose(fk)
  {
  }

  lemma TodoKeysLoose()
    ensures forall fk :: fk in TODO_KEYS ==> Loose(fk)
  {
  }

  lemma AccountKeysLoose()
    ensures forall fk :: fk in ACCOUNT_KEYS ==> Loose(fk)
  {
  }

  lemma LogKeysLoose()
    ensures forall fk :: fk in LOG_KEYS ==> Loose(fk)
  {
  }

  lemma MailKeysLoose()
    ensures forall fk :: fk in MAIL_KEYS ==> Loose(fk)
  {
  }

  lemma AttachmentKeysLoose()
    ensures forall fk :: fk in ATTACHMENT_KEYS ==> Loose(fk)
  {
  }

  lemma AppointmentKeysLoose()
    ensures forall fk :: fk in APPOINTMENT_KEYS ==> Loose(fk)
  {
  }

  lemma ActivityKeysLoose()
    ensures forall fk :: fk in ACTIVITY_KEYS ==> Loose(fk)
  {
  }

  lemma WorkflowKeysLoose()
    ensures forall fk :: fk in WORKFLOW_KEYS ==> Loose(fk)
  {
  }

  lemma NoteKeysLoose()
    ensures forall fk :: fk in NOTE_KEYS ==> Loose(fk)
  {
  }

  lemma InviteKeysLoose()
    ensures forall fk :: fk in INVITE_KEYS ==> Loose(fk)
  {
  }

  lemma KeysLoose()
    ensures forall fk :: fk in FOREIGN_KEYS ==> Loose(fk)
  {
    CustomerKeysLoose();
    DealKeysLoose();
    TodoKeysLoose();
    AccountKeysLoose();
    LogKeysLoose();
    MailKeysLoose();
    AttachmentKeysLoose();
    AppointmentKeysLoose();
    ActivityKeysLoose();
    WorkflowKeysLoose();
    NoteKeysLoose();
    InviteKeysLoose();
  }

  lemma UsersToContactsOk()
    ensures forall i :: 0 <= i < 4 ==> SpecOk(SPECS[i])
  {
    forall i | 0 <= i < 4 ensures SpecOk(SPECS[i]) {
      if i == 0 {
        UsersOk(SPECS[i]);
      } else if i == 1 {
        CompaniesOk(SPECS[i]);
      } else if i == 2 {
        WorkflowsOk(SPECS[i]);
      } else {
        ContactsOk(SPECS[i]);
      }
    }
  }

  lemma DealsToTokensOk()
    ensures forall i :: 4 <= i < 8 ==> SpecOk(SPECS[i])
  {
    forall i | 4 <= i < 8 ensures SpecOk(SPECS[i]) {
      if i == 4 {
        DealsOk(SPECS[i]);
      } else if i == 5 {
        EmailAccountsOk(SPECS[i]);
      } else if i == 6 {
        TodosOk(SPECS[i]);
      } else {
        RefreshTokensOk(SPECS[i]);
      }
    }
  }

  lemma LogsToAttachmentsOk()
    ensures forall i :: 8 <= i < 12 ==> SpecOk(SPECS[i])
  {
    forall i | 8 <= i < 12 ensures SpecOk(SPECS[i]) {
      if i == 8 {
        AuditLogsOk(SPECS[i]);
      } else if i == 9 {
        NotificationsOk(SPECS[i]);
      } else if i == 10 {
        EmailMessagesOk(SPECS[i]);
      } else {
        EmailAttachmentsOk(SPECS[i]);
      }
    }
  }

  lemma AppointmentsToRunsOk()
    ensures forall i :: 12 <= i < 16 ==> SpecOk(SPECS[i])
  {
    forall i | 12 <= i < 16 ensures SpecOk(SPECS[i]) {
      if i == 12 {
        AppointmentsOk(SPECS[i]);
      } else if i == 13 {
        CallActivitiesOk(SPECS[i]);
      } else if i == 14 {
        CompanyResearchOk(SPECS[i]);
      } else {
        WorkflowRunsOk(SPECS[i]);
      }
    }
  }

  lemma StepsToInvitesOk()
    ensures forall i :: 16 <= i < 20 ==> SpecOk(SPECS[i])
  {
    forall i | 16 <= i < 20 ensures SpecOk(SPECS[i]) {
      if i == 16 {
        WorkflowStepsOk(SPECS[i]);
      } else if i == 17 {
        NotesOk(SPECS[i]);
      } else if i == 18 {
        IntakeFormsOk(SPECS[i]);
      } else {
        UserInvitesOk(SPECS[i]);
      }
    }
  }

  lemma TemplatesToAuditOk()
    ensures forall i :: 20 <= i < 24 ==> SpecOk(SPECS[i])
  {
    forall i | 20 <= i < 24 ensures SpecOk(SPECS[i]) {
      if i == 20 {
        EmailTemplatesOk(SPECS[i]);
      } else if i == 21 {
        KnowledgeBaseArticlesOk(SPECS[i]);
      } else if i == 22 {
        AiResearchJobsOk(SPECS[i]);
      } else {
        AiAuditLogsOk(SPECS[i]);
      }
    }
  }

  lemma ProgramWellFormed()
    ensures WellFormed(PROGRAM)
  {
    UsersToContactsOk();
    DealsToTokensOk();
    LogsToAttachmentsOk();
    AppointmentsToRunsOk();
    StepsToInvitesOk();
    TemplatesToAuditOk();
    NamesDiffer();
    KeysPointBack();
    forall fk | fk in PROGRAM.foreignKeys
      ensures exists i: nat, j: nat :: PointsBack(PROGRAM, fk, i, j)
    {
      assert Placed(fk);
    }
  }

  /** ai_audit_logs.user_id is the one stored column outside the allow-lists. */
  lemma ExtraColumn(i: nat)
    requires i < |SPECS|
    ensures SPECS[i].extra != [] <==> i == 23
  {
  }

  /** ai_research_jobs.updated_at is the one column an upsert assigns without its table having it. */
  lemma UndefinedColumn(i: nat)
    requires i < |SPECS|
    ensures !Executable(SPECS[i]) <==> i == 22
  {
  }

  datatype Column = Column(table: string, name: string)

  /** The JSONB columns that are NOT NULL. */
  const REQUIRED_JSON: seq<Column> := [
    Column("companies", "custom_fields"), Column("workflows", "steps_json"),
    Column("contacts", "custom_fields"), Column("contacts", "tags"),
    Column("deals", "custom_fields"), Column("deals", "tags"), Column("audit_logs", "changes"),
    Column("email_messages", "recipient_emails"), Column("email_messages", "tags"),
    Column("workflow_runs", "snapshot_json"), Column("workflow_steps", "payload_json"),
    Column("intake_forms", "fields_json"), Column("ai_research_jobs", "result_json")
  ]

  ghost predicate RequiredJson(s: Spec, c: string) { c in s.json && c !in s.nullable }

  lemma RequiredAt(i: nat, c: string)
    requires i < |SPECS| && RequiredJson(SPECS[i], c)
    ensures Column(SPECS[i].name, c) in REQUIRED_JSON
  {
  }

  lemma RequiredListed(n: nat) returns (i: nat)
    requires n < |REQUIRED_JSON|
    ensures i < |SPECS| && SPECS[i].name == REQUIRED_JSON[n].table
    ensures RequiredJson(SPECS[i], REQUIRED_JSON[n].name)
  {
    if n < 6 { i := CustomersRequire(n); } else { i := LogsRequire(n); }
  }

  lemma CustomersRequire(n: nat) returns (i: nat)
    requires n < 6
    ensures i < |SPECS| && SPECS[i].name == REQUIRED_JSON[n].table
    ensures RequiredJson(SPECS[i], REQUIRED_JSON[n].name)
  {
    i := [1, 2, 3, 3, 4, 4][n];
  }

  lemma LogsRequire(n: nat) returns (i: nat)
    requires 6 <= n < |REQUIRED_JSON|
    ensures i < |SPECS| && SPECS[i].name == REQUIRED_JSON[n].table
    ensures RequiredJson(SPECS[i], REQUIRED_JSON[n].name)
  {
    i := [8, 10, 10, 15, 16, 18, 22][n - 6];
  }
}
