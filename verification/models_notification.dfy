/** The `Notification` schema: a required recipient email and text. */
module NotificationModel {
  datatype Notification = Notification(userEmail: string, message: string)
}
