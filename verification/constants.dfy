/** Application constants the core reads (config/constants.php). */
module Constants {
  const ROLE_ADMIN: string := "admin"
  const ROLE_TENANT: string := "tenant"

  const PROPERTY_AVAILABLE: string := "available"
  const PROPERTY_OCCUPIED: string := "occupied"
  const PROPERTY_MAINTENANCE: string := "maintenance"
  /** The property statuses the properties table admits. */
  const PROPERTY_STATUSES: seq<string> := [PROPERTY_AVAILABLE, PROPERTY_OCCUPIED, PROPERTY_MAINTENANCE]

  const PAYMENT_PAID: string := "paid"

  /** The payment types the payments table admits. */
  const PAYMENT_TYPES: seq<string> := ["rent", "deposit", "maintenance", "penalty"]
  /** The payment statuses the payments table admits. */
  const PAYMENT_STATUSES: seq<string> := ["pending", "paid", "overdue", "cancelled"]

  /** The maintenance statuses the reports accept and the maintenance table admits. */
  const MAINTENANCE_STATUSES: seq<string> := ["pending", "in_progress", "completed", "cancelled"]
  /** The maintenance priorities the maintenance table admits. */
  const MAINTENANCE_PRIORITIES: seq<string> := ["low", "medium", "high", "emergency"]

  const USER_ACTIVE: string := "active"

  /** MAX_UPLOAD_SIZE: 5 MiB. */
  const MAX_UPLOAD_SIZE: int := 5242880
  const ALLOWED_IMAGE_TYPES: seq<string> := ["image/jpeg", "image/png", "image/webp"]
  const ALLOWED_DOCUMENT_TYPES: seq<string> := ["application/pdf"]
}
